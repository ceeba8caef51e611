/** What each record carries, and what the tailers do when the file is replaced under them. */
module TailRotation {
  import opened Sequences
  import opened Utf8
  import opened TranscriptLines
  import opened Tailers
  import opened TailRuns

  // --- a record spelled out ---

  /** The bytes up to the end of the first n lines, newlines included. */
  function BytesOf(lines: seq<string>, n: nat): nat
    requires n <= |lines|
  {
    if n == 0 then 0 else BytesOf(lines, n - 1) + |Encode(lines[n - 1])| + 1
  }

  /** How many of the first n lines are worth a record. */
  function Worth(lines: seq<string>, n: nat): nat
    requires n <= |lines|
  {
    if n == 0 then 0 else Worth(lines, n - 1) + if Trim(lines[n - 1]) == "" then 0 else 1
  }

  lemma {:induction false} BytesAre(lines: seq<string>, n: nat)
    requires n <= |lines|
    ensures BytesOf(lines, n) == ByteLength(Unlines(lines[..n]))
    decreases n
  {
    if n > 0 {
      BytesAre(lines, n - 1);
      assert lines[..n] == lines[..n - 1] + [lines[n - 1]];
      UnlinesConcat(lines[..n - 1], [lines[n - 1]]);
      OneLine(lines[n - 1]);
      EncodeConcat(Unlines(lines[..n - 1]), Unlines([lines[n - 1]]));
    } else {
      assert lines[..0] == [];
    }
  }

  lemma OneLine(line: string)
    ensures ByteLength(Unlines([line])) == |Encode(line)| + 1
  {
    assert Unlines([line]) == line + [NEWLINE] + Unlines([line][1..]);
    assert line + [NEWLINE] + "" == line + [NEWLINE];
    NewlineByte(line);
  }

  lemma {:induction false} WorthIs(lines: seq<string>, n: nat)
    requires n <= |lines|
    ensures Worth(lines, n) == |Kept(lines[..n])|
    decreases n
  {
    if n > 0 {
      WorthIs(lines, n - 1);
      assert lines[..n] == lines[..n - 1] + [lines[n - 1]];
      KeptStep(lines[..n - 1], lines[n - 1]);
    }
  }

  /**
   * The record of the i-th line of a file read from the start. The number counts records, or
   * lines for Oh My Pi; the cursor points behind the line, or at its start for Codex.
   */
  function RecordAtLine(flavour: Flavour, lines: seq<string>, i: nat): Record
    requires i < |lines|
  {
    var before, end, k := BytesOf(lines, i), BytesOf(lines, i + 1), Worth(lines, i);
    match flavour
    case Claude => Record(k + 1, lines[i], Cursor(end, i + 1, k + 1))
    case Omp => Record(i + 1, Trim(lines[i]), Cursor(end, i + 1, i + 1))
    case Codex => Record(k + 1, Trim(lines[i]), Cursor(before, k + 2, k + 1))
  }

  /** Every record delivered is that of its line, number and cursor included. */
  lemma RecordSpelledOut(flavour: Flavour, lines: seq<string>, i: nat)
    requires i < |lines| && Trim(lines[i]) != ""
    ensures var records := RecordsOf(flavour, Start(flavour), lines);
            Worth(lines, i) < |records| && records[Worth(lines, i)] == RecordAtLine(flavour, lines, i)
  {
    RecordAt(flavour, Start(flavour), lines, i);
    WorthIs(lines, i);
    ReaderAtLine(flavour, lines, i);
  }

  /** Where the reader stands in front of the i-th line. */
  lemma ReaderAtLine(flavour: Flavour, lines: seq<string>, i: nat)
    requires i <= |lines|
    ensures PastAll(flavour, Start(flavour), lines[..i]) ==
            Cursor(BytesOf(lines, i),
                   if flavour == Claude then i else if flavour == Omp then i + 1 else Worth(lines, i) + 1,
                   if flavour == Omp then i else Worth(lines, i))
  {
    PastAllIs(flavour, Start(flavour), lines[..i]);
    WorthIs(lines, i);
    BytesAre(lines, i);
  }

  // --- a file replaced by a shorter one ---

  /**
   * A file shorter than the offset is read from its start, line one, with the numbers going on
   * for Codex and beginning again for the others; any other file is read from the offset.
   */
  lemma RereadIff(flavour: Flavour, c: Cursor, text: string, limit: int)
    requires ByteLength(text) != c.offset
    ensures Step(flavour, c, Encode(text), limit) ==
            if ByteLength(text) < c.offset
            then Consume(flavour, Cursor(0, 1, if flavour == Codex then c.sequence else 0), CompleteLines(text), limit)
            else Consume(flavour, c, CompleteLines(Decode(Encode(text)[c.offset..])), limit)
  {
    if ByteLength(text) < c.offset {
      assert Encode(text)[0..] == Encode(text);
      DecodeEncode(text);
      if ByteLength(text) == 0 {
        EncodeAtLeast(text);
        assert CompleteLines("") == [];
      }
    }
  }

  /** The payloads of some records. */
  function Payloads(records: seq<Record>): (payloads: seq<string>)
    ensures |payloads| == |records| && forall k :: 0 <= k < |records| ==> payloads[k] == records[k].payload
  {
    seq(|records|, k requires 0 <= k < |records| => records[k].payload)
  }

  lemma PayloadsConcat(a: seq<Record>, b: seq<Record>)
    ensures Payloads(a + b) == Payloads(a) + Payloads(b)
  {
  }

  /** Readers at the same offset read the same, whatever they count. */
  lemma {:induction false} SameConsume(flavour: Flavour, c: Cursor, d: Cursor, lines: seq<string>, limit: int)
    requires c.offset == d.offset
    ensures var x, y := Consume(flavour, c, lines, limit), Consume(flavour, d, lines, limit);
            x.0.offset == y.0.offset && Payloads(x.1) == Payloads(y.1)
    decreases |lines|
  {
    if lines != [] && limit > 0 {
      var c', d' := Past(flavour, c, lines[0]), Past(flavour, d, lines[0]);
      if Blank(lines[0]) {
        SameConsume(flavour, c', d', lines[1..], limit);
      } else {
        SameConsume(flavour, c', d', lines[1..], limit - 1);
        PayloadsConcat([RecordFor(flavour, c, lines[0])], Consume(flavour, c', lines[1..], limit - 1).1);
        PayloadsConcat([RecordFor(flavour, d, lines[0])], Consume(flavour, d', lines[1..], limit - 1).1);
        assert Payloads([RecordFor(flavour, c, lines[0])]) == Payloads([RecordFor(flavour, d, lines[0])]);
      }
    }
  }

  lemma SameStep(flavour: Flavour, c: Cursor, d: Cursor, file: seq<Byte>, limit: int)
    requires c.offset == d.offset
    ensures var x, y := Step(flavour, c, file, limit), Step(flavour, d, file, limit);
            x.0.offset == y.0.offset && Payloads(x.1) == Payloads(y.1)
  {
    var c', d' := Rewind(flavour, c, |file|), Rewind(flavour, d, |file|);
    if |file| > c'.offset {
      SameConsume(flavour, c', d', CompleteLines(Decode(file[c'.offset..])), limit);
    }
  }

  /** Two readers of the same file at the same offset, having delivered the same texts. */
  ghost predicate Alike(w: World, v: World) {
    w.text == v.text && w.position.offset == v.position.offset && Payloads(w.delivered) == Payloads(v.delivered)
  }

  lemma {:induction false} RunAlike(flavour: Flavour, w: World, v: World, events: seq<Event>)
    requires Alike(w, v)
    ensures Alike(RunFrom(flavour, w, events), RunFrom(flavour, v, events))
    decreases |events|
  {
    if events != [] {
      match events[0] {
        case Append(_) =>
        case Read(limit) =>
          var file := Encode(w.text);
          SameStep(flavour, w.position, v.position, file, limit);
          PayloadsConcat(w.delivered, Step(flavour, w.position, file, limit).1);
          PayloadsConcat(v.delivered, Step(flavour, v.position, file, limit).1);
      }
      RunAlike(flavour, Next(flavour, w, events[0]), Next(flavour, v, events[0]), events[1..]);
    }
  }

  /**
   * After the file was replaced by one shorter than the offset, and a read that saw it so,
   * the reader delivers what a new reader of the new file delivers, ever after.
   */
  lemma RotationRestarts(flavour: Flavour, c: Cursor, text: string, limit: int, later: seq<Event>)
    requires ByteLength(text) < c.offset
    ensures var old', new' := RunFrom(flavour, World(text, c, []), [Read(limit)] + later), RunFrom(flavour, World(text, Start(flavour), []), [Read(limit)] + later);
            old'.position.offset == new'.position.offset && Payloads(old'.delivered) == Payloads(new'.delivered)
  {
    var w, v := World(text, c, []), World(text, Start(flavour), []);
    RereadIff(flavour, c, text, limit);
    var restarted := Cursor(0, 1, if flavour == Codex then c.sequence else 0);
    SameConsume(flavour, restarted, Start(flavour), CompleteLines(text), limit);
    FromTheStart(flavour, text, limit);
    assert ([Read(limit)] + later)[1..] == later;
    PayloadsConcat([], Consume(flavour, restarted, CompleteLines(text), limit).1);
    PayloadsConcat([], Consume(flavour, Start(flavour), CompleteLines(text), limit).1);
    RunAlike(flavour, Next(flavour, w, Read(limit)), Next(flavour, v, Read(limit)), later);
  }

  lemma FromTheStart(flavour: Flavour, text: string, limit: int)
    ensures Step(flavour, Start(flavour), Encode(text), limit) == Consume(flavour, Start(flavour), CompleteLines(text), limit)
  {
    assert CompleteLines(text)[..0] == [] && CompleteLines(text)[0..] == CompleteLines(text);
    StepAt(flavour, text, Start(flavour), 0, limit);
  }

  /** A file replaced by another of the same size: its line is never read. */
  lemma MissedReplacement(flavour: Flavour, c: Cursor, limit: int)
    requires c.offset == 2
    ensures Step(flavour, c, Encode("b\n"), limit) == (c, [])
  {
    assert Encode("b\n") == EncodeChar('b') + Encode("\n") && Encode("\n") == EncodeChar('\n') + Encode("") by {
      assert "b\n"[1..] == "\n" && "\n"[1..] == "";
    }
  }
}
