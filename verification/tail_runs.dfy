/** Exactly-once delivery over every interleaving of appends and reads, for all three tailers. */
module TailRuns {
  import opened Sequences
  import opened Utf8
  import opened TranscriptLines
  import opened Tailers

  // --- a stretch of lines, without limit ---

  function PastAll(flavour: Flavour, c: Cursor, lines: seq<string>): Cursor
    decreases |lines|
  {
    if lines == [] then c else PastAll(flavour, Past(flavour, c, lines[0]), lines[1..])
  }

  function RecordsOf(flavour: Flavour, c: Cursor, lines: seq<string>): seq<Record>
    decreases |lines|
  {
    if lines == [] then []
    else
      (if Blank(lines[0]) then [] else [RecordFor(flavour, c, lines[0])]) +
      RecordsOf(flavour, Past(flavour, c, lines[0]), lines[1..])
  }

  /** A batch is the records of the lines it takes. */
  lemma {:induction false} ConsumeIs(flavour: Flavour, c: Cursor, lines: seq<string>, limit: int)
    ensures Consume(flavour, c, lines, limit) ==
            (PastAll(flavour, c, lines[..Taken(lines, limit)]), RecordsOf(flavour, c, lines[..Taken(lines, limit)]))
    decreases |lines|
  {
    var n := Taken(lines, limit);
    if lines == [] || limit <= 0 {
      assert lines[..n] == [];
    } else {
      var c', rest := Past(flavour, c, lines[0]), lines[1..];
      ConsumeIs(flavour, c', rest, if Blank(lines[0]) then limit else limit - 1);
      ConsFront(flavour, c, lines[0], rest[..n - 1]);
      assert lines[..n] == [lines[0]] + rest[..n - 1];
    }
  }

  lemma ConsFront(flavour: Flavour, c: Cursor, line: string, rest: seq<string>)
    ensures PastAll(flavour, c, [line] + rest) == PastAll(flavour, Past(flavour, c, line), rest)
    ensures RecordsOf(flavour, c, [line] + rest) ==
            if Blank(line) then RecordsOf(flavour, Past(flavour, c, line), rest)
            else [RecordFor(flavour, c, line)] + RecordsOf(flavour, Past(flavour, c, line), rest)
  {
    assert ([line] + rest)[1..] == rest;
  }

  lemma {:induction false} PastOnward(flavour: Flavour, c: Cursor, a: seq<string>, b: seq<string>)
    ensures PastAll(flavour, c, a + b) == PastAll(flavour, PastAll(flavour, c, a), b)
    decreases |a|
  {
    if a == [] {
      assert a + b == b;
    } else {
      assert (a + b)[1..] == a[1..] + b;
      PastOnward(flavour, Past(flavour, c, a[0]), a[1..], b);
    }
  }

  lemma {:induction false} RecordsOnward(flavour: Flavour, c: Cursor, a: seq<string>, b: seq<string>)
    ensures RecordsOf(flavour, c, a + b) == RecordsOf(flavour, c, a) + RecordsOf(flavour, PastAll(flavour, c, a), b)
    decreases |a|
  {
    if a == [] {
      assert a + b == b;
    } else {
      var line, rest := a[0], a[1..];
      assert a == [line] + rest && a + b == [line] + (rest + b);
      RecordsOnward(flavour, Past(flavour, c, line), rest, b);
      OneMoreLine(flavour, c, line, rest, b);
    }
  }

  lemma OneMoreLine(flavour: Flavour, c: Cursor, line: string, rest: seq<string>, b: seq<string>)
    requires var c' := Past(flavour, c, line);
             RecordsOf(flavour, c', rest + b) == RecordsOf(flavour, c', rest) + RecordsOf(flavour, PastAll(flavour, c', rest), b)
    ensures RecordsOf(flavour, c, [line] + (rest + b)) ==
            RecordsOf(flavour, c, [line] + rest) + RecordsOf(flavour, PastAll(flavour, c, [line] + rest), b)
  {
    var c' := Past(flavour, c, line);
    ConsFront(flavour, c, line, rest);
    ConsFront(flavour, c, line, rest + b);
    Associate([RecordFor(flavour, c, line)], RecordsOf(flavour, c', rest), RecordsOf(flavour, PastAll(flavour, c', rest), b));
  }

  /** Where a reader stands: bytes of the lines behind it, lines or records counted. */
  lemma {:induction false} PastAllIs(flavour: Flavour, c: Cursor, lines: seq<string>)
    ensures PastAll(flavour, c, lines) ==
            Cursor(c.offset + ByteLength(Unlines(lines)),
                   c.line + (if flavour == Codex then |Kept(lines)| else |lines|),
                   c.sequence + (if flavour == Omp then |lines| else |Kept(lines)|))
    decreases |lines|
  {
    if lines != [] {
      var line, rest := lines[0], lines[1..];
      PastAllIs(flavour, Past(flavour, c, line), rest);
      NewlineByte(line);
      EncodeConcat(line + [NEWLINE], Unlines(rest));
      KeptHead(lines);
    }
  }

  lemma KeptHead(lines: seq<string>)
    requires lines != []
    ensures Kept(lines) == if Blank(lines[0]) then Kept(lines[1..]) else [lines[0]] + Kept(lines[1..])
  {
    assert lines == [lines[0]] + lines[1..];
    KeptCons(lines[0], lines[1..]);
  }

  lemma RecordsHead(flavour: Flavour, c: Cursor, lines: seq<string>)
    requires lines != []
    ensures RecordsOf(flavour, c, lines) ==
            var rest := RecordsOf(flavour, Past(flavour, c, lines[0]), lines[1..]);
            if Blank(lines[0]) then rest else [RecordFor(flavour, c, lines[0])] + rest
  {
    assert lines == [lines[0]] + lines[1..];
    ConsFront(flavour, c, lines[0], lines[1..]);
  }

  function PayloadOf(flavour: Flavour, line: string): string {
    if flavour == Claude then line else Trim(line)
  }

  lemma FirstRecord(flavour: Flavour, c: Cursor, line: string)
    requires !Blank(line)
    ensures RecordFor(flavour, c, line).payload == PayloadOf(flavour, line)
    ensures RecordFor(flavour, c, line).sequence == c.sequence + 1
  {
  }

  /** The records of some lines are the non-blank ones, one each and in order; two tailers number them consecutively. */
  lemma {:induction false} RecordPayload(flavour: Flavour, c: Cursor, lines: seq<string>, k: nat)
    requires k < |Kept(lines)|
    ensures |RecordsOf(flavour, c, lines)| == |Kept(lines)|
    ensures RecordsOf(flavour, c, lines)[k].payload == PayloadOf(flavour, Kept(lines)[k])
    ensures flavour != Omp ==> RecordsOf(flavour, c, lines)[k].sequence == c.sequence + k + 1
    decreases |lines|
  {
    KeptHead(lines);
    RecordsHead(flavour, c, lines);
    var c', rest := Past(flavour, c, lines[0]), lines[1..];
    RecordCount(flavour, c', rest);
    if Blank(lines[0]) {
      RecordPayload(flavour, c', rest, k);
    } else if k > 0 {
      RecordPayload(flavour, c', rest, k - 1);
    } else {
      FirstRecord(flavour, c, lines[0]);
    }
  }

  /** Each non-blank line has its record, made where the lines before it leave the reader. */
  lemma RecordAt(flavour: Flavour, c: Cursor, lines: seq<string>, i: nat)
    requires i < |lines| && !Blank(lines[i])
    ensures var k := |Kept(lines[..i])|;
            && k < |Kept(lines)| == |RecordsOf(flavour, c, lines)|
            && Kept(lines)[k] == lines[i]
            && RecordsOf(flavour, c, lines)[k] == RecordFor(flavour, PastAll(flavour, c, lines[..i]), lines[i])
  {
    var front, back := lines[..i], lines[i..];
    assert lines == front + back;
    RecordsOnward(flavour, c, front, back);
    KeptConcat(front, back);
    RecordCount(flavour, c, front);
    RecordCount(flavour, c, lines);
    KeptHead(back);
    RecordsHead(flavour, PastAll(flavour, c, front), back);
  }

  /** The Oh My Pi tailer numbers a record by the line it came from. */
  lemma OmpSequence(c: Cursor, lines: seq<string>, i: nat)
    requires i < |lines| && !Blank(lines[i])
    ensures var k := |Kept(lines[..i])|;
            && k < |RecordsOf(Omp, c, lines)|
            && RecordsOf(Omp, c, lines)[k].payload == Trim(lines[i])
            && RecordsOf(Omp, c, lines)[k].sequence == c.sequence + i + 1
  {
    RecordAt(Omp, c, lines, i);
    PastAllIs(Omp, c, lines[..i]);
    FirstRecord(Omp, PastAll(Omp, c, lines[..i]), lines[i]);
  }

  lemma {:induction false} RecordCount(flavour: Flavour, c: Cursor, lines: seq<string>)
    ensures |RecordsOf(flavour, c, lines)| == |Kept(lines)|
    decreases |lines|
  {
    if lines != [] {
      KeptHead(lines);
      RecordsHead(flavour, c, lines);
      RecordCount(flavour, Past(flavour, c, lines[0]), lines[1..]);
    }
  }

  // --- runs ---

  datatype Event = Append(chunk: string) | Read(limit: int)

  /** The file's text, the reader's position and everything delivered so far. */
  datatype World = World(text: string, position: Cursor, delivered: seq<Record>)

  function Next(flavour: Flavour, w: World, event: Event): World {
    match event
    case Append(chunk) => w.(text := w.text + chunk)
    case Read(limit) =>
      var batch := Step(flavour, w.position, Encode(w.text), limit);
      w.(position := batch.0, delivered := w.delivered + batch.1)
  }

  function RunFrom(flavour: Flavour, w: World, events: seq<Event>): World
    decreases |events|
  {
    if events == [] then w else RunFrom(flavour, Next(flavour, w, events[0]), events[1..])
  }

  function Run(flavour: Flavour, events: seq<Event>): World {
    RunFrom(flavour, World("", Start(flavour), []), events)
  }

  /** How many lines are behind a reader that reads from just after the first n. */
  function LinesBehind(text: string, n: nat, limit: int): (end: nat)
    requires n <= |CompleteLines(text)|
    ensures n <= end <= |CompleteLines(text)|
  {
    n + Taken(CompleteLines(text)[n..], limit)
  }

  /** The reader stands just after the first n lines and has delivered their records. */
  ghost predicate StandsAt(flavour: Flavour, w: World, n: nat) {
    && n <= |CompleteLines(w.text)|
    && w.position == PastAll(flavour, Start(flavour), CompleteLines(w.text)[..n])
    && w.delivered == RecordsOf(flavour, Start(flavour), CompleteLines(w.text)[..n])
  }

  /** The reader stands just after the first n lines, whatever it has delivered. */
  ghost predicate Placed(flavour: Flavour, w: World, n: nat) {
    n <= |CompleteLines(w.text)| && w.position == PastAll(flavour, Start(flavour), CompleteLines(w.text)[..n])
  }

  lemma {:induction false} EncodeAtLeast(text: string)
    ensures |Encode(text)| >= |text|
  {
    if text != "" {
      EncodeAtLeast(text[1..]);
    }
  }

  /** A read from a line boundary is the batch of the lines that follow it. */
  lemma StepAt(flavour: Flavour, text: string, c: Cursor, n: nat, limit: int)
    requires n <= |CompleteLines(text)| && c.offset == ByteLength(Unlines(CompleteLines(text)[..n]))
    ensures Step(flavour, c, Encode(text), limit) == Consume(flavour, c, CompleteLines(text)[n..], limit)
  {
    var lines := CompleteLines(text);
    var rest := AfterLines(text, n);
    var front := Unlines(lines[..n]);
    EncodeDrop(front, rest);
    EncodeConcat(front, rest);
    EncodeAtLeast(rest);
    assert CompleteLines("") == [];
    assert |Encode(text)| == c.offset ==> rest == "";
  }

  lemma StartOffset(flavour: Flavour, lines: seq<string>)
    ensures PastAll(flavour, Start(flavour), lines).offset == ByteLength(Unlines(lines))
  {
    PastAllIs(flavour, Start(flavour), lines);
  }

  lemma Slices(lines: seq<string>, n: nat, m: nat)
    requires n <= m <= |lines|
    ensures lines[..n] + lines[n..m] == lines[..m]
    ensures lines[n..m] + lines[m..] == lines[n..]
    ensures lines[n..][..m - n] == lines[n..m]
  {
  }

  /** A read from just after the first n lines, in terms of all the lines. */
  lemma BatchAt(flavour: Flavour, text: string, at: Cursor, n: nat, limit: int)
    requires n <= |CompleteLines(text)| && at == PastAll(flavour, Start(flavour), CompleteLines(text)[..n])
    ensures var end := LinesBehind(text, n, limit);
            && Step(flavour, at, Encode(text), limit).0 == PastAll(flavour, Start(flavour), CompleteLines(text)[..end])
            && Step(flavour, at, Encode(text), limit).1 == RecordsOf(flavour, at, CompleteLines(text)[n..end])
  {
    var lines := CompleteLines(text);
    var end := LinesBehind(text, n, limit);
    StartOffset(flavour, lines[..n]);
    StepAt(flavour, text, at, n, limit);
    ConsumeIs(flavour, at, lines[n..], limit);
    Slices(lines, n, end);
    PastOnward(flavour, Start(flavour), lines[..n], lines[n..end]);
  }

  lemma RecordsAfter(flavour: Flavour, lines: seq<string>, n: nat, end: nat)
    requires n <= end <= |lines|
    ensures RecordsOf(flavour, Start(flavour), lines[..n]) +
            RecordsOf(flavour, PastAll(flavour, Start(flavour), lines[..n]), lines[n..end]) ==
            RecordsOf(flavour, Start(flavour), lines[..end])
  {
    Slices(lines, n, end);
    RecordsOnward(flavour, Start(flavour), lines[..n], lines[n..end]);
  }

  lemma ReadStands(flavour: Flavour, w: World, n: nat, limit: int)
    requires StandsAt(flavour, w, n)
    ensures StandsAt(flavour, Next(flavour, w, Read(limit)), LinesBehind(w.text, n, limit))
  {
    BatchAt(flavour, w.text, w.position, n, limit);
    RecordsAfter(flavour, CompleteLines(w.text), n, LinesBehind(w.text, n, limit));
  }

  lemma AppendStands(flavour: Flavour, w: World, n: nat, chunk: string)
    requires StandsAt(flavour, w, n)
    ensures StandsAt(flavour, Next(flavour, w, Append(chunk)), n)
  {
    AppendKeepsLines(w.text, chunk);
    assert CompleteLines(w.text + chunk)[..n] == CompleteLines(w.text)[..n];
  }

  lemma StaysPlaced(flavour: Flavour, w: World, n: nat, event: Event) returns (m: nat)
    requires Placed(flavour, w, n)
    ensures Placed(flavour, Next(flavour, w, event), m)
  {
    match event {
      case Append(chunk) =>
        AppendKeepsLines(w.text, chunk);
        assert CompleteLines(w.text + chunk)[..n] == CompleteLines(w.text)[..n];
        m := n;
      case Read(limit) =>
        BatchAt(flavour, w.text, w.position, n, limit);
        m := LinesBehind(w.text, n, limit);
    }
  }

  lemma {:induction false} RunStands(flavour: Flavour, w: World, n: nat, events: seq<Event>) returns (m: nat)
    requires StandsAt(flavour, w, n)
    ensures StandsAt(flavour, RunFrom(flavour, w, events), m)
    decreases |events|
  {
    if events == [] {
      m := n;
    } else {
      var n' := n;
      match events[0] {
        case Append(chunk) => AppendStands(flavour, w, n, chunk);
        case Read(limit) =>
          ReadStands(flavour, w, n, limit);
          n' := LinesBehind(w.text, n, limit);
      }
      m := RunStands(flavour, Next(flavour, w, events[0]), n', events[1..]);
    }
  }

  /** Line i of the file was delivered under the number i + 1. */
  ghost predicate NumberedByLine(w: World, i: nat) {
    && i < |CompleteLines(w.text)|
    && var k := |Kept(CompleteLines(w.text)[..i])|;
       k < |w.delivered| && w.delivered[k].payload == Trim(CompleteLines(w.text)[i]) && w.delivered[k].sequence == i + 1
  }

  /**
   * Exactly once: after any run the offset is the size of the first n lines, and what was
   * delivered is their records - every non-blank line before the offset, none twice.
   */
  lemma ExactlyOnce(flavour: Flavour, events: seq<Event>) returns (n: nat)
    ensures StandsAt(flavour, Run(flavour, events), n)
    ensures var w := Run(flavour, events);
            var behind := CompleteLines(w.text)[..n];
            && w.position.offset == ByteLength(Unlines(behind))
            && |w.delivered| == |Kept(behind)|
            && forall k :: 0 <= k < |w.delivered| ==>
                 && w.delivered[k].payload == PayloadOf(flavour, Kept(behind)[k])
                 && (flavour != Omp ==> w.delivered[k].sequence == k + 1)
    ensures flavour == Omp ==>
              var w := Run(Omp, events);
              forall i :: 0 <= i < n && !Blank(CompleteLines(w.text)[i]) ==> NumberedByLine(w, i)
  {
    assert CompleteLines("") == [];
    n := RunStands(flavour, World("", Start(flavour), []), 0, events);
    var w := Run(flavour, events);
    var behind := CompleteLines(w.text)[..n];
    StartOffset(flavour, behind);
    RecordCount(flavour, Start(flavour), behind);
    forall k | 0 <= k < |w.delivered|
      ensures w.delivered[k].payload == PayloadOf(flavour, Kept(behind)[k])
      ensures flavour != Omp ==> w.delivered[k].sequence == k + 1
    {
      RecordPayload(flavour, Start(flavour), behind, k);
    }
    if flavour == Omp {
      forall i | 0 <= i < n && !Blank(CompleteLines(w.text)[i]) ensures NumberedByLine(w, i) {
        assert behind[i] == CompleteLines(w.text)[i] && behind[..i] == CompleteLines(w.text)[..i];
        OmpSequence(Start(Omp), behind, i);
      }
    }
  }

  lemma DeliveredCount(flavour: Flavour, w: World, n: nat)
    requires StandsAt(flavour, w, n)
    ensures |w.delivered| == |Kept(CompleteLines(w.text)[..n])|
  {
    RecordCount(flavour, Start(flavour), CompleteLines(w.text)[..n]);
  }

  /** A read delivers as many records as it may, and skips nothing that was ready. */
  lemma ReadDelivers(flavour: Flavour, w: World, n: nat, limit: nat)
    requires StandsAt(flavour, w, n)
    ensures var ready := Kept(CompleteLines(w.text)[n..]);
            var w' := Next(flavour, w, Read(limit));
            && |w'.delivered| == |w.delivered| + (if |ready| < limit then |ready| else limit)
            && (|ready| < limit ==> StandsAt(flavour, w', |CompleteLines(w.text)|))
  {
    var end := LinesBehind(w.text, n, limit);
    ReadStands(flavour, w, n, limit);
    DeliveredCount(flavour, w, n);
    DeliveredCount(flavour, Next(flavour, w, Read(limit)), end);
    KeptBehind(w.text, n, limit);
  }

  lemma KeptBehind(text: string, n: nat, limit: nat)
    requires n <= |CompleteLines(text)|
    ensures var lines, ready := CompleteLines(text), Kept(CompleteLines(text)[n..]);
            && |Kept(lines[..LinesBehind(text, n, limit)])| == |Kept(lines[..n])| + (if |ready| < limit then |ready| else limit)
            && (|ready| < limit ==> LinesBehind(text, n, limit) == |lines|)
  {
    var lines := CompleteLines(text);
    var end := LinesBehind(text, n, limit);
    TakenFillsBatch(lines[n..], limit);
    Slices(lines, n, end);
    KeptConcat(lines[..n], lines[n..end]);
  }

  // --- a new reader built from the cursor ---

  /** Same file; the second reader is ahead of the first by blank lines only. */
  ghost predicate Interchangeable(flavour: Flavour, w: World, v: World, m: nat, n: nat) {
    && w.text == v.text && m <= n <= |CompleteLines(w.text)|
    && w.position == PastAll(flavour, Start(flavour), CompleteLines(w.text)[..m])
    && v.position == PastAll(flavour, Start(flavour), CompleteLines(w.text)[..n])
    && Kept(CompleteLines(w.text)[m..n]) == []
    && (flavour != Claude ==> m == n)
  }

  /** The first read of a resumed reader delivers what the old one would have, and lands where it would have. */
  lemma SameBatch(flavour: Flavour, w: World, v: World, m: nat, n: nat, limit: int)
    requires Interchangeable(flavour, w, v, m, n) && limit >= 1
    ensures Step(flavour, w.position, Encode(w.text), limit) == Step(flavour, v.position, Encode(v.text), limit)
    ensures Step(flavour, v.position, Encode(v.text), limit).0 ==
            PastAll(flavour, Start(flavour), CompleteLines(w.text)[..LinesBehind(w.text, n, limit)])
  {
    var lines := CompleteLines(w.text);
    StartOffset(flavour, lines[..m]);
    StartOffset(flavour, lines[..n]);
    StepAt(flavour, w.text, w.position, m, limit);
    StepAt(flavour, w.text, v.position, n, limit);
    Slices(lines, m, n);
    ConsumeSkips(flavour, w.position, lines[m..n], lines[n..], limit);
    PastOnward(flavour, Start(flavour), lines[..m], lines[m..n]);
    BatchAt(flavour, w.text, v.position, n, limit);
  }

  /** Blank lines in front of a batch only move the reader along. */
  lemma {:induction false} ConsumeSkips(flavour: Flavour, c: Cursor, blank: seq<string>, lines: seq<string>, limit: int)
    requires Kept(blank) == [] && limit >= 1
    ensures Consume(flavour, c, blank + lines, limit) == Consume(flavour, PastAll(flavour, c, blank), lines, limit)
    decreases |blank|
  {
    if blank == [] {
      assert blank + lines == lines;
    } else {
      KeptHead(blank);
      assert (blank + lines)[0] == blank[0] && (blank + lines)[1..] == blank[1..] + lines;
      ConsumeSkips(flavour, Past(flavour, c, blank[0]), blank[1..], lines, limit);
    }
  }

  lemma SameAppend(flavour: Flavour, w: World, v: World, m: nat, n: nat, chunk: string)
    requires Interchangeable(flavour, w, v, m, n)
    ensures Interchangeable(flavour, Next(flavour, w, Append(chunk)), Next(flavour, v, Append(chunk)), m, n)
  {
    AppendKeepsLines(w.text, chunk);
    var lines, lines' := CompleteLines(w.text), CompleteLines(w.text + chunk);
    assert lines'[..m] == lines[..m] && lines'[..n] == lines[..n] && lines'[m..n] == lines[m..n];
  }

  lemma SameRead(flavour: Flavour, w: World, v: World, m: nat, n: nat, limit: int) returns (batch: seq<Record>, end: nat)
    requires Interchangeable(flavour, w, v, m, n) && limit >= 1
    ensures Interchangeable(flavour, Next(flavour, w, Read(limit)), Next(flavour, v, Read(limit)), end, end)
    ensures Next(flavour, w, Read(limit)).delivered == w.delivered + batch
    ensures Next(flavour, v, Read(limit)).delivered == v.delivered + batch
  {
    SameBatch(flavour, w, v, m, n, limit);
    batch := Step(flavour, w.position, Encode(w.text), limit).1;
    end := LinesBehind(w.text, n, limit);
    assert CompleteLines(w.text)[end..end] == [];
  }

  /** Two interchangeable readers deliver the same records ever after. */
  lemma {:induction false} SameDeliveries(flavour: Flavour, w: World, v: World, m: nat, n: nat, events: seq<Event>) returns (more: seq<Record>)
    requires Interchangeable(flavour, w, v, m, n)
    requires forall i :: 0 <= i < |events| && events[i].Read? ==> events[i].limit >= 1
    ensures RunFrom(flavour, w, events).delivered == w.delivered + more
    ensures RunFrom(flavour, v, events).delivered == v.delivered + more
    decreases |events|
  {
    if events == [] {
      more := [];
      assert w.delivered + [] == w.delivered && v.delivered + [] == v.delivered;
    } else {
      var w', v' := Next(flavour, w, events[0]), Next(flavour, v, events[0]);
      var batch: seq<Record> := [];
      var m', n' := m, n;
      match events[0] {
        case Append(chunk) =>
          SameAppend(flavour, w, v, m, n, chunk);
          assert w.delivered + [] == w.delivered && v.delivered + [] == v.delivered;
        case Read(limit) =>
          batch, n' := SameRead(flavour, w, v, m, n, limit);
          m' := n';
      }
      var rest := SameDeliveries(flavour, w', v', m', n', events[1..]);
      more := batch + rest;
      Associate(w.delivered, batch, rest);
      Associate(v.delivered, batch, rest);
    }
  }

  /** What `getCursor` hands out: the position itself, or for Claude the last record's cursor. */
  function HandedOut(flavour: Flavour, w: World): Cursor {
    if flavour != Claude then w.position
    else CursorAfter(w.delivered)
  }

  function CursorAfter(records: seq<Record>): Cursor {
    if records == [] then Start(Claude) else records[|records| - 1].cursor
  }

  lemma CursorAfterLast(records: seq<Record>, last: Record)
    ensures CursorAfter(records + [last]) == last.cursor
  {
  }

  lemma OneLineMore(front: seq<string>, line: string)
    ensures RecordsOf(Claude, Start(Claude), front + [line]) ==
            RecordsOf(Claude, Start(Claude), front) +
            if Blank(line) then [] else [RecordFor(Claude, PastAll(Claude, Start(Claude), front), line)]
    ensures PastAll(Claude, Start(Claude), front + [line]) == Past(Claude, PastAll(Claude, Start(Claude), front), line)
  {
    var c := PastAll(Claude, Start(Claude), front);
    PastOnward(Claude, Start(Claude), front, [line]);
    RecordsOnward(Claude, Start(Claude), front, [line]);
    assert [line] + [] == [line];
    ConsFront(Claude, c, line, []);
  }

  /** A Claude record carries the position just after its line. */
  lemma RecordCursorIs(front: seq<string>, line: string)
    requires !Blank(line)
    ensures var c := PastAll(Claude, Start(Claude), front);
            RecordFor(Claude, c, line).cursor == Past(Claude, c, line)
  {
    PastAllIs(Claude, Start(Claude), front);
  }

  lemma {:induction false} LastRecordCursor(lines: seq<string>, n: nat) returns (m: nat)
    requires n <= |lines|
    ensures m <= n && Kept(lines[m..n]) == []
    ensures PastAll(Claude, Start(Claude), lines[..m]) == CursorAfter(RecordsOf(Claude, Start(Claude), lines[..n]))
    decreases n
  {
    if n == 0 {
      m := 0;
      assert lines[0..0] == [] && lines[..0] == [];
    } else {
      var front, line := lines[..n - 1], lines[n - 1];
      assert lines[..n] == front + [line];
      OneLineMore(front, line);
      var records := RecordsOf(Claude, Start(Claude), front);
      if Blank(line) {
        assert records + [] == records;
        m := LastRecordCursor(lines, n - 1);
        assert lines[m..n] == lines[m..n - 1] + [line];
        KeptStep(lines[m..n - 1], line);
      } else {
        RecordCursorIs(front, line);
        CursorAfterLast(records, RecordFor(Claude, PastAll(Claude, Start(Claude), front), line));
        m := n;
        assert lines[n..n] == [];
      }
    }
  }

  /** A reader built from the cursor stands where the old one does, or in front of blank lines the old one has passed. */
  lemma ResumesNear(flavour: Flavour, events: seq<Event>) returns (m: nat, n: nat)
    ensures var w := Run(flavour, events);
            var resumed := World(w.text, HandedOut(flavour, w), []);
            Placed(flavour, resumed, m) && Interchangeable(flavour, resumed, w, m, n)
  {
    var w := Run(flavour, events);
    n := ExactlyOnce(flavour, events);
    m := n;
    if flavour == Claude {
      m := LastRecordCursor(CompleteLines(w.text), n);
    } else {
      assert CompleteLines(w.text)[n..n] == [];
    }
  }

  /** A reader built from the cursor continues the same sequence of records, numbers included. */
  lemma ResumeContinues(flavour: Flavour, events: seq<Event>, later: seq<Event>) returns (more: seq<Record>)
    requires forall i :: 0 <= i < |later| && later[i].Read? ==> later[i].limit >= 1
    ensures var w := Run(flavour, events);
            && RunFrom(flavour, w, later).delivered == w.delivered + more
            && RunFrom(flavour, World(w.text, HandedOut(flavour, w), []), later).delivered == more
  {
    var w := Run(flavour, events);
    var m, n := ResumesNear(flavour, events);
    more := SameDeliveries(flavour, World(w.text, HandedOut(flavour, w), []), w, m, n, later);
    assert [] + more == more;
  }
}
