/** The three transcript tailers: byte-offset cursors over a growing JSONL file. */
module Tailers {
  import opened Wrappers
  import opened Utf8
  import opened TranscriptLines

  datatype Flavour = Claude | Omp | Codex

  datatype Cursor = Cursor(offset: nat, line: int, sequence: nat)

  /** A delivered record: its number, its text and the cursor attached to it. */
  datatype Record = Record(sequence: nat, payload: string, cursor: Cursor)

  function Max(a: int, b: int): int {
    if a >= b then a else b
  }

  /** The reader's position one complete line further on. */
  function Past(flavour: Flavour, c: Cursor, line: string): Cursor {
    var kept := if Blank(line) then 0 else 1;
    Cursor(
      c.offset + ByteLength(line) + 1,
      c.line + (if flavour == Codex then kept else 1),
      c.sequence + (if flavour == Omp then 1 else kept))
  }

  /** The record made of a non-blank line when the reader stands at its start. */
  function RecordFor(flavour: Flavour, before: Cursor, line: string): Record {
    var after := Past(flavour, before, line);
    match flavour
    case Claude => Record(after.sequence, line, after.(line := Max(1, after.line)))
    case Omp => Record(after.sequence, Trim(line), after.(line := before.line))
    case Codex => Record(after.sequence, Trim(line), after.(offset := before.offset))
  }

  /** Reads complete lines until the batch is full or the lines run out. */
  function Consume(flavour: Flavour, c: Cursor, lines: seq<string>, limit: int): (Cursor, seq<Record>)
    decreases |lines|
  {
    if lines == [] || limit <= 0 then (c, [])
    else if Blank(lines[0]) then Consume(flavour, Past(flavour, c, lines[0]), lines[1..], limit)
    else
      var rest := Consume(flavour, Past(flavour, c, lines[0]), lines[1..], limit - 1);
      (rest.0, [RecordFor(flavour, c, lines[0])] + rest.1)
  }

  /** A file shorter than the offset was truncated: start over. */
  function Rewind(flavour: Flavour, c: Cursor, size: nat): Cursor {
    if size < c.offset then Cursor(0, 1, if flavour == Codex then c.sequence else 0) else c
  }

  /** One `readNext` over the given file. */
  function Step(flavour: Flavour, c: Cursor, file: seq<Byte>, limit: int): (Cursor, seq<Record>) {
    var start := Rewind(flavour, c, |file|);
    if |file| <= start.offset then (start, [])
    else Consume(flavour, start, CompleteLines(Decode(file[start.offset..])), limit)
  }

  function Start(flavour: Flavour): Cursor {
    Cursor(0, if flavour == Claude then 0 else 1, 0)
  }

  /** A batch in progress: what is left to read completes it. */
  ghost predicate Progress(flavour: Flavour, result: (Cursor, seq<Record>), lines: seq<string>, limit: int, i: nat, records: seq<Record>, at: Cursor) {
    i <= |lines| &&
    var rest := Consume(flavour, at, lines[i..], limit - |records|);
    result.0 == rest.0 && result.1 == records + rest.1
  }

  lemma ProgressStart(flavour: Flavour, start: Cursor, lines: seq<string>, limit: int)
    ensures Progress(flavour, Consume(flavour, start, lines, limit), lines, limit, 0, [], start)
  {
    assert lines[0..] == lines;
  }

  lemma ProgressStep(flavour: Flavour, result: (Cursor, seq<Record>), lines: seq<string>, limit: int, i: nat, records: seq<Record>, at: Cursor)
    requires Progress(flavour, result, lines, limit, i, records, at) && i < |lines| && |records| < limit
    ensures Progress(flavour, result, lines, limit, i + 1,
                     if Blank(lines[i]) then records else records + [RecordFor(flavour, at, lines[i])],
                     Past(flavour, at, lines[i]))
  {
    assert lines[i..][0] == lines[i] && lines[i..][1..] == lines[i + 1..];
    if !Blank(lines[i]) {
      var rest := Consume(flavour, Past(flavour, at, lines[i]), lines[i + 1..], limit - |records| - 1);
      assert records + ([RecordFor(flavour, at, lines[i])] + rest.1) == (records + [RecordFor(flavour, at, lines[i])]) + rest.1;
    }
  }

  lemma ProgressEnd(flavour: Flavour, result: (Cursor, seq<Record>), lines: seq<string>, limit: int, i: nat, records: seq<Record>, at: Cursor)
    requires Progress(flavour, result, lines, limit, i, records, at) && (i == |lines| || |records| >= limit)
    ensures result == (at, records)
  {
    assert records + [] == records;
  }

  lemma NewlineByte(line: string)
    ensures ByteLength(line + [NEWLINE]) == ByteLength(line) + 1
  {
    EncodeConcat(line, [NEWLINE]);
    assert Encode([NEWLINE]) == [10];
  }

  // --- the Claude Code tailer ---

  /** The Claude tailer's own cursor is that of the last record it delivered. */
  function LastCursor(previous: Option<Cursor>, records: seq<Record>): Option<Cursor> {
    if records == [] then previous else Some(records[|records| - 1].cursor)
  }

  lemma LastCursorAppend(previous: Option<Cursor>, records: seq<Record>, last: Record)
    ensures LastCursor(previous, records + [last]) == Some(last.cursor)
  {
  }

  class ClaudeSessionEventSource {
    var cursor: Option<Cursor>
    var currentByteOffset: nat
    var currentLineNumber: int
    var currentSequence: nat
    var isProcessing: bool
    var closed: bool

    function Position(): Cursor
      reads this
    {
      Cursor(currentByteOffset, currentLineNumber, currentSequence)
    }

    constructor (initialCursor: Option<Cursor>)
      ensures cursor == initialCursor && !isProcessing && !closed
      ensures Position() == if initialCursor.Some? then initialCursor.value else Start(Claude)
    {
      cursor, isProcessing, closed := initialCursor, false, false;
      var position := if initialCursor.Some? then initialCursor.value else Start(Claude);
      currentByteOffset, currentLineNumber, currentSequence := position.offset, position.line, position.sequence;
    }

    method Checkpoint(c: Cursor)
      modifies this
      ensures cursor == Some(c) && Position() == c && isProcessing == old(isProcessing) && closed == old(closed)
    {
      cursor := Some(c);
      currentByteOffset, currentLineNumber, currentSequence := c.offset, c.line, c.sequence;
    }

    /** `content` is None when the file does not exist or cannot be read. */
    method ReadNext(content: Option<string>, batchSize: int) returns (records: seq<Record>)
      modifies this
      ensures closed == old(closed) && isProcessing == old(isProcessing)
      ensures closed || old(isProcessing) || content.None? ==>
                records == [] && Position() == old(Position()) && cursor == old(cursor)
      ensures !closed && !old(isProcessing) && content.Some? ==>
                && (Position(), records) == Step(Claude, old(Position()), Encode(content.value), batchSize)
                && cursor == LastCursor(old(cursor), records)
    {
      if closed || isProcessing {
        return [];
      }
      isProcessing := true;
      records := [];
      if content.Some? {
        records := FetchRecords(content.value, batchSize);
      }
      isProcessing := false;
    }

    method FetchRecords(content: string, maxRecords: int) returns (records: seq<Record>)
      modifies this`currentByteOffset, this`currentLineNumber, this`currentSequence, this`cursor
      ensures (Position(), records) == Step(Claude, old(Position()), Encode(content), maxRecords)
      ensures cursor == LastCursor(old(cursor), records)
    {
      records := [];
      var buffer := Encode(content);
      if |buffer| < currentByteOffset {
        currentByteOffset := 0;
        currentLineNumber := 1;
        currentSequence := 0;
      }
      if |buffer| <= currentByteOffset {
        return;
      }
      var newText := Decode(buffer[currentByteOffset..]);
      var lines := Split(newText);
      records := ReadLines(lines[..|lines| - 1], maxRecords);
    }

    method ReadLines(completeLines: seq<string>, maxRecords: int) returns (records: seq<Record>)
      modifies this`currentByteOffset, this`currentLineNumber, this`currentSequence, this`cursor
      ensures (Position(), records) == Consume(Claude, old(Position()), completeLines, maxRecords)
      ensures cursor == LastCursor(old(cursor), records)
    {
      records := [];
      ghost var result := Consume(Claude, Position(), completeLines, maxRecords);
      ghost var at := Position();
      var consumedBytes: nat := 0;
      var i: nat := 0;
      ProgressStart(Claude, at, completeLines, maxRecords);
      while i < |completeLines| && |records| < maxRecords
        invariant at == Cursor(currentByteOffset + consumedBytes, currentLineNumber, currentSequence)
        invariant Progress(Claude, result, completeLines, maxRecords, i, records, at)
        invariant cursor == LastCursor(old(cursor), records)
      {
        var line := completeLines[i];
        ProgressStep(Claude, result, completeLines, maxRecords, i, records, at);
        var record := ReadLine(line, consumedBytes);
        if record.Some? {
          LastCursorAppend(old(cursor), records, record.value);
          records := records + [record.value];
        }
        at := Past(Claude, at, line);
        consumedBytes := consumedBytes + ByteLength(line) + 1;
        i := i + 1;
      }
      ProgressEnd(Claude, result, completeLines, maxRecords, i, records, at);
      currentByteOffset := currentByteOffset + consumedBytes;
    }

    /** Counts one line, already `consumedBytes` past the offset, and makes its record if it is not blank. */
    method ReadLine(line: string, consumedBytes: nat) returns (record: Option<Record>)
      modifies this`currentLineNumber, this`currentSequence, this`cursor
      ensures var at := Cursor(currentByteOffset + consumedBytes, old(currentLineNumber), old(currentSequence));
              && Past(Claude, at, line) == Cursor(at.offset + ByteLength(line) + 1, currentLineNumber, currentSequence)
              && record == (if Blank(line) then None else Some(RecordFor(Claude, at, line)))
              && cursor == if record.Some? then Some(record.value.cursor) else old(cursor)
    {
      currentLineNumber := currentLineNumber + 1;
      if Blank(line) {
        return None;
      }
      currentSequence := currentSequence + 1;
      var recordCursor :=
        Cursor(currentByteOffset + consumedBytes + ByteLength(line) + 1, Max(1, currentLineNumber), currentSequence);
      cursor := Some(recordCursor);
      return Some(Record(currentSequence, line, recordCursor));
    }
  }

  // --- the Oh My Pi tailer ---

  class OmpSessionEventSource {
    var currentCursor: Cursor
    var isClosed: bool

    constructor (initialCursor: Option<Cursor>)
      ensures currentCursor == (if initialCursor.Some? then initialCursor.value else Start(Omp)) && !isClosed
    {
      currentCursor := if initialCursor.Some? then initialCursor.value else Start(Omp);
      isClosed := false;
    }

    method Checkpoint(c: Cursor)
      modifies this`currentCursor
      ensures currentCursor == c
    {
      currentCursor := c;
    }

    /** `file` is None when it cannot be opened. */
    method ReadNext(file: Option<seq<Byte>>, limit: int) returns (records: seq<Record>)
      modifies this`currentCursor
      ensures isClosed || file.None? ==> records == [] && currentCursor == old(currentCursor)
      ensures !isClosed && file.Some? ==> (currentCursor, records) == Step(Omp, old(currentCursor), file.value, limit)
    {
      records := [];
      if isClosed || file.None? {
        return;
      }
      if |file.value| < currentCursor.offset {
        currentCursor := Cursor(0, 1, 0);
      }
      var bytesAvailable := |file.value| - currentCursor.offset;
      if bytesAvailable <= 0 {
        return;
      }
      records := ReadChunk(Decode(file.value[currentCursor.offset..]), limit);
    }

    method ReadChunk(rawChunk: string, limit: int) returns (records: seq<Record>)
      modifies this`currentCursor
      ensures (currentCursor, records) == Consume(Omp, old(currentCursor), CompleteLines(rawChunk), limit)
    {
      records := [];
      ghost var lines, i: nat := CompleteLines(rawChunk), 0;
      ghost var result := Consume(Omp, currentCursor, lines, limit);
      var lineStart := 0;
      ProgressStart(Omp, currentCursor, lines, limit);
      assert rawChunk[0..] == rawChunk && lines[0..] == lines;
      while lineStart < |rawChunk| && |records| < limit
        invariant lineStart <= |rawChunk|
        invariant Progress(Omp, result, lines, limit, i, records, currentCursor)
        invariant CompleteLines(rawChunk[lineStart..]) == lines[i..]
        decreases |rawChunk| - lineStart
      {
        var newlineIndex := lineStart + NewlineIndex(rawChunk[lineStart..]);
        if newlineIndex == |rawChunk| {
          break;
        }
        LineAt(rawChunk, lineStart, newlineIndex);
        assert lines[i..][0] == lines[i] && lines[i..][1..] == lines[i + 1..];
        ProgressStep(Omp, result, lines, limit, i, records, currentCursor);
        var record := ReadLine(rawChunk[lineStart..newlineIndex], rawChunk[lineStart..newlineIndex + 1]);
        lineStart := newlineIndex + 1;
        if record.Some? {
          records := records + [record.value];
        }
        i := i + 1;
      }
      ExhaustedText(rawChunk[lineStart..]);
      ProgressEnd(Omp, result, lines, limit, i, records, currentCursor);
    }

    /** Moves past one line and makes its record, if it is not blank. */
    method ReadLine(line: string, lineSliceWithNewline: string) returns (record: Option<Record>)
      requires lineSliceWithNewline == line + [NEWLINE]
      modifies this`currentCursor
      ensures currentCursor == Past(Omp, old(currentCursor), line)
      ensures record == if Blank(line) then None else Some(RecordFor(Omp, old(currentCursor), line))
    {
      NewlineByte(line);
      var lineByteLength := ByteLength(lineSliceWithNewline);
      currentCursor := currentCursor.(offset := currentCursor.offset + lineByteLength, sequence := currentCursor.sequence + 1);
      record := None;
      var trimmed := Trim(line);
      if |trimmed| > 0 {
        record := Some(Record(currentCursor.sequence, trimmed, currentCursor));
      }
      currentCursor := currentCursor.(line := currentCursor.line + 1);
    }
  }

  lemma LineAt(text: string, start: nat, newlineIndex: nat)
    requires start <= newlineIndex < |text| && newlineIndex == start + NewlineIndex(text[start..])
    ensures text[start..newlineIndex + 1] == text[start..newlineIndex] + [NEWLINE]
    ensures CompleteLines(text[start..]) == [text[start..newlineIndex]] + CompleteLines(text[newlineIndex + 1..])
  {
    var line, rest := text[start..newlineIndex], text[newlineIndex + 1..];
    LineFree(text, start, newlineIndex);
    SliceTail(text, start, newlineIndex);
    FirstLine(line, rest);
  }

  lemma LineFree(text: string, start: nat, newlineIndex: nat)
    requires start <= newlineIndex < |text| && newlineIndex == start + NewlineIndex(text[start..])
    ensures NewlineFree(text[start..newlineIndex]) && text[newlineIndex] == NEWLINE
  {
    forall k | 0 <= k < newlineIndex - start ensures text[start..newlineIndex][k] != NEWLINE {
      assert text[start..newlineIndex][k] == text[start..][k];
    }
  }

  lemma SliceTail(text: string, start: nat, end: nat)
    requires start <= end < |text| && text[end] == NEWLINE
    ensures text[start..] == text[start..end] + [NEWLINE] + text[end + 1..]
    ensures text[start..end + 1] == text[start..end] + [NEWLINE]
  {
  }

  lemma ExhaustedText(rest: string)
    ensures NewlineIndex(rest) == |rest| ==> CompleteLines(rest) == []
  {
  }

  // --- the Codex CLI tailer ---

  class CodexSessionEventSource {
    var cursor: Cursor
    var closed: bool

    constructor (initialCursor: Option<Cursor>)
      ensures cursor == (if initialCursor.Some? then initialCursor.value else Start(Codex)) && !closed
    {
      cursor := if initialCursor.Some? then initialCursor.value else Start(Codex);
      closed := false;
    }

    method Checkpoint(c: Cursor)
      modifies this`cursor
      ensures cursor == c
    {
      cursor := c;
    }

    /** `file` is None when it cannot be opened. */
    method ReadNext(file: Option<seq<Byte>>, batchSize: int) returns (records: seq<Record>)
      modifies this`cursor
      ensures closed || file.None? ==> records == [] && cursor == old(cursor)
      ensures !closed && file.Some? ==> (cursor, records) == Step(Codex, old(cursor), file.value, batchSize)
    {
      records := [];
      if closed || file.None? {
        return;
      }
      if |file.value| < cursor.offset {
        cursor := cursor.(offset := 0, line := 1);
      }
      if |file.value| <= cursor.offset {
        return;
      }
      records := ReadText(Decode(file.value[cursor.offset..]), batchSize);
    }

    method ReadText(rawText: string, batchSize: int) returns (records: seq<Record>)
      requires rawText != ""
      modifies this`cursor
      ensures (cursor, records) == Consume(Codex, old(cursor), CompleteLines(rawText), batchSize)
    {
      var lines := Split(rawText);
      var hasTrailingNewline := rawText[|rawText| - 1] == NEWLINE;
      var completeLines := lines[..|lines| - 1];
      if hasTrailingNewline && lines[|lines| - 1] != "" {
        EndsWithNewline(rawText);
        completeLines := lines;
      }
      records := ReadLines(completeLines, batchSize);
    }

    method ReadLines(completeLines: seq<string>, batchSize: int) returns (records: seq<Record>)
      modifies this`cursor
      ensures (cursor, records) == Consume(Codex, old(cursor), completeLines, batchSize)
    {
      records := [];
      ghost var result := Consume(Codex, cursor, completeLines, batchSize);
      var startOffset := cursor.offset;
      var consumedBytes: nat := 0;
      var i: nat := 0;
      ProgressStart(Codex, cursor, completeLines, batchSize);
      while i < |completeLines| && |records| < batchSize
        invariant Progress(Codex, result, completeLines, batchSize, i, records,
                           Cursor(startOffset + consumedBytes, cursor.line, cursor.sequence))
      {
        var line := completeLines[i];
        var lineOffset := startOffset + consumedBytes;
        ghost var at := Cursor(lineOffset, cursor.line, cursor.sequence);
        ProgressStep(Codex, result, completeLines, batchSize, i, records, at);
        consumedBytes := consumedBytes + ByteLength(line) + 1;
        i := i + 1;
        var trimmed := Trim(line);
        if trimmed == "" {
          continue;
        }
        cursor := cursor.(sequence := cursor.sequence + 1, line := cursor.line + 1);
        assert RecordFor(Codex, at, line) == Record(cursor.sequence, trimmed, Cursor(lineOffset, cursor.line, cursor.sequence));
        records := records + [Record(cursor.sequence, trimmed, Cursor(lineOffset, cursor.line, cursor.sequence))];
      }
      ProgressEnd(Codex, result, completeLines, batchSize, i, records,
                  Cursor(startOffset + consumedBytes, cursor.line, cursor.sequence));
      cursor := cursor.(offset := startOffset + consumedBytes);
    }
  }
}
