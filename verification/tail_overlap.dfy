/** Reads that overlap: what two unguarded ones deliver, and what the guard keeps. */
module TailOverlap {
  import opened Wrappers
  import opened Sequences
  import opened Utf8
  import opened TranscriptLines
  import opened Tailers
  import opened TailRuns

  // --- which lines were delivered, by their number in the file ---

  /** The numbers, from base on, of the lines that get a record. */
  function KeptAt(lines: seq<string>, base: nat): seq<nat> {
    if lines == [] then []
    else
      var last := |lines| - 1;
      KeptAt(lines[..last], base) + if Blank(lines[last]) then [] else [base + last]
  }

  ghost predicate Increasing(numbers: seq<nat>) {
    forall i, j :: 0 <= i < j < |numbers| ==> numbers[i] < numbers[j]
  }

  lemma {:induction false} KeptAtIs(lines: seq<string>, base: nat)
    ensures |KeptAt(lines, base)| == |Kept(lines)|
    ensures forall k :: 0 <= k < |KeptAt(lines, base)| ==>
              base <= KeptAt(lines, base)[k] < base + |lines| && lines[KeptAt(lines, base)[k] - base] == Kept(lines)[k]
    ensures Increasing(KeptAt(lines, base))
  {
    if lines != [] {
      KeptAtIs(lines[..|lines| - 1], base);
    }
  }

  /** A number is listed exactly when its line is not blank. */
  lemma {:induction false} KeptAtHas(lines: seq<string>, base: nat, i: nat)
    ensures i in KeptAt(lines, base) <==> base <= i < base + |lines| && !Blank(lines[i - base])
  {
    if lines != [] {
      KeptAtHas(lines[..|lines| - 1], base, i);
    }
  }

  /** A world and, for every record delivered in it, the number of the line it came from. */
  datatype Traced = Traced(world: World, numbers: seq<nat>)

  /** Second half of an asynchronous read: the text was fetched earlier, from where the reader then stood. */
  function Finish(flavour: Flavour, w: World, fetched: string, limit: int): World {
    var batch := Consume(flavour, w.position, CompleteLines(fetched), limit);
    w.(position := batch.0, delivered := w.delivered + batch.1)
  }

  /** The lines of a fetched text that a batch takes. */
  function TakenLines(fetched: string, limit: int): seq<string> {
    CompleteLines(fetched)[..Taken(CompleteLines(fetched), limit)]
  }

  /** The fetch was made when the reader stood just after the first `base` lines. */
  function FinishTraced(flavour: Flavour, t: Traced, base: nat, fetched: string, limit: int): Traced {
    Traced(Finish(flavour, t.world, fetched, limit), t.numbers + KeptAt(TakenLines(fetched, limit), base))
  }

  /** The reader stands just after the first n lines and has delivered each of them once, by number and by record. */
  ghost predicate TracedAt(flavour: Flavour, t: Traced, n: nat) {
    StandsAt(flavour, t.world, n) && t.numbers == KeptAt(CompleteLines(t.world.text)[..n], 0)
  }

  /** The offset is the size of the first m lines, and the lines delivered are those, each once and in order. */
  ghost predicate Exact(t: Traced, m: nat) {
    && m <= |CompleteLines(t.world.text)|
    && t.world.position.offset == ByteLength(Unlines(CompleteLines(t.world.text)[..m]))
    && t.numbers == KeptAt(CompleteLines(t.world.text)[..m], 0)
  }

  lemma TracedIsExact(flavour: Flavour, t: Traced, n: nat)
    requires TracedAt(flavour, t, n)
    ensures Exact(t, n)
  {
    StartOffset(flavour, CompleteLines(t.world.text)[..n]);
  }

  // --- two reads that fetch before either finishes ---

  /** Both texts were read from the byte after the first n lines, possibly at different times. */
  ghost predicate FetchedFrom(text: string, n: nat, fetched: string) {
    && n <= |CompleteLines(text)|
    && Unlines(CompleteLines(text)[..n]) + fetched <= text
  }

  /** The complete lines of what was fetched are lines of the file, from the n-th on. */
  lemma FetchedLines(text: string, n: nat, fetched: string)
    requires FetchedFrom(text, n, fetched)
    ensures CompleteLines(fetched) <= CompleteLines(text)[n..]
  {
    var front := Unlines(CompleteLines(text)[..n]);
    var rest := AfterLines(text, n);
    var more := text[|front + fetched|..];
    assert text == (front + fetched) + more;
    Associate(front, fetched, more);
    assert text[|front|..] == fetched + more && text[|front|..] == rest;
    AppendKeepsLines(fetched, more);
  }

  lemma FinishIs(flavour: Flavour, w: World, fetched: string, limit: int)
    ensures var lines := TakenLines(fetched, limit);
            && Finish(flavour, w, fetched, limit).position == PastAll(flavour, w.position, lines)
            && Finish(flavour, w, fetched, limit).delivered == w.delivered + RecordsOf(flavour, w.position, lines)
            && Finish(flavour, w, fetched, limit).position.offset == w.position.offset + ByteLength(Unlines(lines))
  {
    ConsumeIs(flavour, w.position, CompleteLines(fetched), limit);
    PastAllIs(flavour, w.position, TakenLines(fetched, limit));
  }

  /** The records of a batch are those of the numbered lines. */
  ghost predicate RecordsFrom(flavour: Flavour, records: seq<Record>, numbers: seq<nat>, lines: seq<string>) {
    && |records| == |numbers|
    && forall k :: 0 <= k < |records| ==> numbers[k] < |lines| && records[k].payload == PayloadOf(flavour, lines[numbers[k]])
  }

  lemma BatchFrom(flavour: Flavour, c: Cursor, lines: seq<string>, n: nat, batch: seq<string>)
    requires n <= |lines| && batch <= lines[n..]
    ensures RecordsFrom(flavour, RecordsOf(flavour, c, batch), KeptAt(batch, n), lines)
  {
    KeptAtIs(batch, n);
    RecordCount(flavour, c, batch);
    forall k | 0 <= k < |KeptAt(batch, n)|
      ensures RecordsOf(flavour, c, batch)[k].payload == PayloadOf(flavour, lines[KeptAt(batch, n)[k]])
    {
      RecordPayload(flavour, c, batch, k);
      assert batch[KeptAt(batch, n)[k] - n] == lines[n..][KeptAt(batch, n)[k] - n];
    }
  }

  /**
   * What two overlapping reads do, whatever their batch sizes and whenever they fetched: the
   * offset moves by the bytes of both batches, and both batches are of lines from the n-th on.
   */
  lemma OverlapDelivers(flavour: Flavour, t: Traced, n: nat, a: string, limitA: int, b: string, limitB: int)
    requires TracedAt(flavour, t, n) && FetchedFrom(t.world.text, n, a) && FetchedFrom(t.world.text, n, b)
    ensures var lines := CompleteLines(t.world.text);
            var batchA, batchB := TakenLines(a, limitA), TakenLines(b, limitB);
            var first := FinishTraced(flavour, t, n, a, limitA);
            var second := FinishTraced(flavour, first, n, b, limitB);
            && batchA <= lines[n..] && batchB <= lines[n..]
            && second.world.position.offset == t.world.position.offset + ByteLength(Unlines(batchA)) + ByteLength(Unlines(batchB))
            && second.numbers == t.numbers + KeptAt(batchA, n) + KeptAt(batchB, n)
            && RecordsFrom(flavour, second.world.delivered[|t.world.delivered|..], KeptAt(batchA, n) + KeptAt(batchB, n), lines)
  {
    var lines := CompleteLines(t.world.text);
    var batchA, batchB := TakenLines(a, limitA), TakenLines(b, limitB);
    FetchedLines(t.world.text, n, a);
    FetchedLines(t.world.text, n, b);
    FinishIs(flavour, t.world, a, limitA);
    var w := Finish(flavour, t.world, a, limitA);
    FinishIs(flavour, w, b, limitB);
    BatchFrom(flavour, t.world.position, lines, n, batchA);
    BatchFrom(flavour, w.position, lines, n, batchB);
    var x, y, z := t.world.delivered, RecordsOf(flavour, t.world.position, batchA), RecordsOf(flavour, w.position, batchB);
    BehindFirst(x, y, z);
    JoinFrom(flavour, y, KeptAt(batchA, n), z, KeptAt(batchB, n), lines);
  }

  lemma BehindFirst(x: seq<Record>, y: seq<Record>, z: seq<Record>)
    ensures ((x + y) + z)[|x|..] == y + z
  {
  }

  lemma JoinFrom(flavour: Flavour, a: seq<Record>, fromA: seq<nat>, b: seq<Record>, fromB: seq<nat>, lines: seq<string>)
    requires RecordsFrom(flavour, a, fromA, lines) && RecordsFrom(flavour, b, fromB, lines)
    ensures RecordsFrom(flavour, a + b, fromA + fromB, lines)
  {
  }

  /** The first line worth a record, if there is one. */
  lemma {:induction false} FirstKept(lines: seq<string>, limit: int) returns (i: nat)
    requires Kept(lines) != [] && limit >= 1
    ensures i < Taken(lines, limit) && !Blank(lines[i]) && forall k :: 0 <= k < i ==> Blank(lines[k])
    decreases |lines|
  {
    KeptHead(lines);
    i := 0;
    if Blank(lines[0]) {
      i := FirstKept(lines[1..], limit);
      assert forall k :: 0 < k <= i ==> lines[1..][k - 1] == lines[k];
      i := i + 1;
    }
  }

  ghost predicate DeliveredTwice(t: Traced, i: nat) {
    exists j, k :: 0 <= j < k < |t.numbers| && t.numbers[j] == i && t.numbers[k] == i
  }

  /** Two overlapping reads deliver some line twice, if and only if both fetched a complete line that is not blank. */
  lemma OverlapTwiceIff(flavour: Flavour, t: Traced, n: nat, a: string, limitA: int, b: string, limitB: int)
    requires TracedAt(flavour, t, n) && FetchedFrom(t.world.text, n, a) && FetchedFrom(t.world.text, n, b)
    requires limitA >= 1 && limitB >= 1
    ensures (exists i :: DeliveredTwice(FinishTraced(flavour, FinishTraced(flavour, t, n, a, limitA), n, b, limitB), i)) <==>
            Kept(CompleteLines(a)) != [] && Kept(CompleteLines(b)) != []
  {
    var lines := CompleteLines(t.world.text);
    FetchedLines(t.world.text, n, a);
    FetchedLines(t.world.text, n, b);
    var fromA, fromB := KeptAt(TakenLines(a, limitA), n), KeptAt(TakenLines(b, limitB), n);
    var second := FinishTraced(flavour, FinishTraced(flavour, t, n, a, limitA), n, b, limitB);
    assert second.numbers == t.numbers + fromA + fromB;
    if Kept(CompleteLines(a)) != [] && Kept(CompleteLines(b)) != [] {
      var i := FirstInBoth(lines[n..], CompleteLines(a), limitA, CompleteLines(b), limitB, n);
      InBoth(t.numbers, fromA, fromB, i);
      assert DeliveredTwice(second, i);
    } else {
      KeptAtIs(lines[..n], 0);
      AtMostOneBatch(CompleteLines(a), limitA, CompleteLines(b), limitB, n);
      OneBatchIncreasing(t.numbers, fromA, fromB, n);
    }
  }

  lemma FirstInBoth(lines: seq<string>, a: seq<string>, limitA: int, b: seq<string>, limitB: int, n: nat) returns (i: nat)
    requires a <= lines && b <= lines && limitA >= 1 && limitB >= 1 && Kept(a) != [] && Kept(b) != []
    ensures i in KeptAt(a[..Taken(a, limitA)], n) && i in KeptAt(b[..Taken(b, limitB)], n)
  {
    i := FirstKept(a, limitA);
    var j := FirstKept(b, limitB);
    SameFirst(lines, a, i, b, j);
    i := n + i;
    KeptAtHas(a[..Taken(a, limitA)], n, i);
    KeptAtHas(b[..Taken(b, limitB)], n, i);
  }

  lemma AtMostOneBatch(a: seq<string>, limitA: int, b: seq<string>, limitB: int, n: nat)
    requires limitA >= 1 && limitB >= 1 && (Kept(a) == [] || Kept(b) == [])
    ensures var fromA, fromB := KeptAt(a[..Taken(a, limitA)], n), KeptAt(b[..Taken(b, limitB)], n);
            && (fromA == [] || fromB == []) && Increasing(fromA) && Increasing(fromB)
            && (forall k :: 0 <= k < |fromA| ==> n <= fromA[k]) && (forall k :: 0 <= k < |fromB| ==> n <= fromB[k])
  {
    KeptAtIs(a[..Taken(a, limitA)], n);
    KeptAtIs(b[..Taken(b, limitB)], n);
    NothingKept(a, limitA);
    NothingKept(b, limitB);
  }

  lemma SameFirst(lines: seq<string>, a: seq<string>, i: nat, b: seq<string>, j: nat)
    requires a <= lines && b <= lines && i < |a| && j < |b|
    requires !Blank(a[i]) && forall k :: 0 <= k < i ==> Blank(a[k])
    requires !Blank(b[j]) && forall k :: 0 <= k < j ==> Blank(b[k])
    ensures i == j
  {
    assert a[i] == lines[i] && b[j] == lines[j];
    forall k | 0 <= k < i ensures Blank(lines[k]) { assert a[k] == lines[k]; }
    forall k | 0 <= k < j ensures Blank(lines[k]) { assert b[k] == lines[k]; }
  }

  lemma InBoth(before: seq<nat>, a: seq<nat>, b: seq<nat>, i: nat)
    requires i in a && i in b
    ensures exists j, k :: 0 <= j < k < |before + a + b| && (before + a + b)[j] == i && (before + a + b)[k] == i
  {
    var x :| 0 <= x < |a| && a[x] == i;
    var y :| 0 <= y < |b| && b[y] == i;
    assert (before + a + b)[|before| + x] == i && (before + a + b)[|before| + |a| + y] == i;
  }

  lemma NothingKept(lines: seq<string>, limit: int)
    requires limit >= 0
    ensures Kept(lines) == [] ==> Kept(lines[..Taken(lines, limit)]) == []
  {
    TakenFillsBatch(lines, limit);
  }

  lemma OneBatchIncreasing(before: seq<nat>, a: seq<nat>, b: seq<nat>, n: nat)
    requires Increasing(before) && Increasing(a) && Increasing(b) && (a == [] || b == [])
    requires forall k :: 0 <= k < |before| ==> before[k] < n
    requires (forall k :: 0 <= k < |a| ==> n <= a[k]) && (forall k :: 0 <= k < |b| ==> n <= b[k])
    ensures Increasing(before + a + b)
  {
    assert before + a + b == before + (if a == [] then b else a);
  }

  /**
   * Two reads of everything there is, for every batch size: delivery stays exactly once, line
   * by line, if and only if no complete line was waiting.
   */
  lemma OverlapIff(flavour: Flavour, t: Traced, n: nat, fetched: string, limit: int)
    requires TracedAt(flavour, t, n) && limit >= 1
    requires t.world.text == Unlines(CompleteLines(t.world.text)[..n]) + fetched
    ensures (exists m :: Exact(FinishTraced(flavour, FinishTraced(flavour, t, n, fetched, limit), n, fetched, limit), m)) <==>
            n == |CompleteLines(t.world.text)|
  {
    var lines := CompleteLines(t.world.text);
    var first := FinishTraced(flavour, t, n, fetched, limit);
    var second := FinishTraced(flavour, first, n, fetched, limit);
    var rest := AfterLines(t.world.text, n);
    assert fetched == t.world.text[|Unlines(lines[..n])|..] == rest;
    OverlapDelivers(flavour, t, n, fetched, limit, fetched, limit);
    TracedIsExact(flavour, t, n);
    if n == |lines| {
      assert TakenLines(fetched, limit) == [] && KeptAt([], n) == [];
      assert t.numbers + [] + [] == t.numbers;
      assert Exact(second, n);
    } else if Kept(lines[n..]) != [] {
      OverlapTwiceIff(flavour, t, n, fetched, limit, fetched, limit);
      var i :| DeliveredTwice(second, i);
      forall m: nat | m <= |lines| ensures !Exact(second, m) {
        KeptAtIs(lines[..m], 0);
      }
    } else {
      TakenFillsBatch(lines[n..], limit);
      assert TakenLines(fetched, limit) == lines[n..];
      LineHasBytes(lines[n..]);
      PrefixBytes(lines, n);
      forall m: nat | m <= |lines| ensures !Exact(second, m) {
        PrefixBytes(lines, m);
      }
    }
  }

  lemma PrefixBytes(lines: seq<string>, m: nat)
    requires m <= |lines|
    ensures ByteLength(Unlines(lines)) == ByteLength(Unlines(lines[..m])) + ByteLength(Unlines(lines[m..]))
  {
    assert lines == lines[..m] + lines[m..];
    UnlinesConcat(lines[..m], lines[m..]);
    EncodeConcat(Unlines(lines[..m]), Unlines(lines[m..]));
  }

  lemma LineHasBytes(lines: seq<string>)
    requires lines != []
    ensures ByteLength(Unlines(lines)) > 0
  {
    NewlineByte(lines[0]);
    EncodeConcat(lines[0] + [NEWLINE], Unlines(lines[1..]));
  }

  function TwiceOver(line: string): string {
    line + [NEWLINE] + (line + [NEWLINE] + "")
  }

  lemma TwoLines(line: string)
    requires NewlineFree(line)
    ensures CompleteLines(TwiceOver(line)) == [line, line]
  {
    FirstLine(line, line + [NEWLINE] + "");
    FirstLine(line, "");
    assert CompleteLines("") == [];
    assert [line] + ([line] + []) == [line, line];
  }

  lemma TakesFirst(line: string)
    requires NewlineFree(line) && !Blank(line)
    ensures TakenLines(TwiceOver(line), 1) == [line] && KeptAt([line], 0) == [0]
  {
    TwoLines(line);
    assert [line, line][1..] == [line] && [line, line][..1] == [line] && [line][..0] == [];
    assert Taken([line, line], 1) == 1 + Taken([line], 0);
    assert KeptAt([line], 0) == KeptAt([], 0) + [0];
  }

  /** A file of one line repeated and batches of one: the first line comes twice, the second never, and the offset is at the end. */
  lemma OverlapRepeats(flavour: Flavour, line: string)
    requires NewlineFree(line) && !Blank(line)
    ensures var text := TwiceOver(line);
            var t := Traced(World(text, Start(flavour), []), []);
            var second := FinishTraced(flavour, FinishTraced(flavour, t, 0, text, 1), 0, text, 1);
            && TracedAt(flavour, t, 0)
            && second.numbers == [0, 0]
            && second.world.position.offset == ByteLength(text)
  {
    var text := TwiceOver(line);
    var t := Traced(World(text, Start(flavour), []), []);
    assert CompleteLines(text)[..0] == [];
    assert TracedAt(flavour, t, 0);
    assert "" + text == text;
    OverlapDelivers(flavour, t, 0, text, 1, text, 1);
    TakesFirst(line);
    TwiceBytes(line);
  }

  lemma TwiceBytes(line: string)
    ensures ByteLength(TwiceOver(line)) == 2 * ByteLength(Unlines([line]))
  {
    assert TwiceOver(line) == (line + [NEWLINE]) + (line + [NEWLINE]) && Unlines([line]) == line + [NEWLINE];
    EncodeConcat(line + [NEWLINE], line + [NEWLINE]);
  }

  /** The same at the file of two lines that read `a`. */
  lemma OverlapExample(flavour: Flavour)
    ensures var text := TwiceOver("a");
            var t := Traced(World(text, Start(flavour), []), []);
            FinishTraced(flavour, FinishTraced(flavour, t, 0, text, 1), 0, text, 1).numbers == [0, 0]
  {
    assert Trim("a") == "a";
    OverlapRepeats(flavour, "a");
  }

  // --- the guard ---

  /** The Claude tailer refuses to begin a read while another is in flight. */
  datatype Guarded = Guarded(world: World, inFlight: Option<(string, int)>)

  datatype AsyncEvent = AsyncAppend(chunk: string) | Begin(limit: int) | End

  function AsyncNext(g: Guarded, event: AsyncEvent): Guarded {
    match event
    case AsyncAppend(chunk) => g.(world := Next(Claude, g.world, Append(chunk)))
    case Begin(limit) => if g.inFlight.Some? then g else g.(inFlight := Some((g.world.text, limit)))
    case End =>
      if g.inFlight.None? then g
      else
        var (text, limit) := g.inFlight.value;
        var batch := Step(Claude, g.world.position, Encode(text), limit);
        Guarded(g.world.(position := batch.0, delivered := g.world.delivered + batch.1), None)
  }

  function AsyncRun(events: seq<AsyncEvent>): Guarded {
    if events == [] then Guarded(World("", Start(Claude), []), None)
    else AsyncNext(AsyncRun(events[..|events| - 1]), events[|events| - 1])
  }

  /** A fetched text is what the file was when the read began. */
  ghost predicate FetchedEarlier(g: Guarded, n: nat) {
    g.inFlight.Some? ==>
      var text := g.inFlight.value.0;
      text <= g.world.text && n <= |CompleteLines(text)|
  }

  /** With the guard, delivery stays exactly-once however reads and appends overlap. */
  lemma {:induction false} GuardedExactlyOnce(events: seq<AsyncEvent>) returns (n: nat)
    ensures StandsAt(Claude, AsyncRun(events).world, n) && FetchedEarlier(AsyncRun(events), n)
  {
    if events == [] {
      n := 0;
      assert CompleteLines("") == [];
    } else {
      var g := AsyncRun(events[..|events| - 1]);
      n := GuardedExactlyOnce(events[..|events| - 1]);
      match events[|events| - 1] {
        case AsyncAppend(chunk) => AppendStands(Claude, g.world, n, chunk);
        case Begin(limit) =>
        case End =>
          if g.inFlight.Some? {
            n := GuardedEnd(g, n);
          }
      }
    }
  }

  /** Finishing the read in flight: as if it had happened when it began. */
  lemma GuardedEnd(g: Guarded, n: nat) returns (m: nat)
    requires StandsAt(Claude, g.world, n) && FetchedEarlier(g, n) && g.inFlight.Some?
    ensures StandsAt(Claude, AsyncNext(g, End).world, m)
  {
    var (text, limit) := g.inFlight.value;
    var suffix := g.world.text[|text|..];
    assert g.world.text == text + suffix;
    AppendKeepsLines(text, suffix);
    var earlier := g.world.(text := text);
    assert CompleteLines(text)[..n] == CompleteLines(g.world.text)[..n];
    ReadStands(Claude, earlier, n, limit);
    m := LinesBehind(text, n, limit);
    AppendStands(Claude, Next(Claude, earlier, Read(limit)), m, suffix);
  }
}
