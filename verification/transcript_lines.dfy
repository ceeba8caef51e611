/** The lines of a JSONL transcript: complete lines, blank lines, and what one batch takes. */
module TranscriptLines {
  import opened Sequences

  const NEWLINE: char := '\n'

  /** What JavaScript's `trim` removes. */
  predicate IsSpace(c: char) {
    var n := c as int;
    || 0x09 <= n <= 0x0D || n == 0x20 || n == 0xA0 || n == 0x1680
    || 0x2000 <= n <= 0x200A || n == 0x2028 || n == 0x2029 || n == 0x202F
    || n == 0x205F || n == 0x3000 || n == 0xFEFF
  }

  /** White space and line terminators, as sections 12.2 and 12.3 of ECMA-262 list them. */
  lemma SpaceIff(c: char)
    ensures IsSpace(c) <==>
            || c in "\t\U{B}\U{C} \U{A0}\U{FEFF}\n\r\U{2028}\U{2029}"
            || c in "\U{1680}\U{2000}\U{2001}\U{2002}\U{2003}\U{2004}\U{2005}\U{2006}\U{2007}\U{2008}\U{2009}\U{200A}\U{202F}\U{205F}\U{3000}"
  {
    SpaceSeparators(c);
  }

  lemma SpaceSeparators(c: char)
    ensures 0x2000 <= c as int <= 0x200A <==>
            c in "\U{2000}\U{2001}\U{2002}\U{2003}\U{2004}\U{2005}\U{2006}\U{2007}\U{2008}\U{2009}\U{200A}"
  {
  }

  function TrimStart(s: string): (r: string)
    ensures |r| <= |s|
  {
    if s != "" && IsSpace(s[0]) then TrimStart(s[1..]) else s
  }

  function TrimEnd(s: string): string {
    if s != "" && IsSpace(s[|s| - 1]) then TrimEnd(s[..|s| - 1]) else s
  }

  function Trim(s: string): string {
    TrimEnd(TrimStart(s))
  }

  predicate Blank(line: string) {
    Trim(line) == ""
  }

  /** The index of the first newline, or the length if there is none. */
  function NewlineIndex(text: string): (i: nat)
    ensures i <= |text|
    ensures forall k :: 0 <= k < i ==> text[k] != NEWLINE
    ensures i < |text| ==> text[i] == NEWLINE
  {
    if text == "" || text[0] == NEWLINE then 0 else 1 + NewlineIndex(text[1..])
  }

  /** `text.split("\n")` */
  function Split(text: string): (parts: seq<string>)
    ensures parts != []
    decreases |text|
  {
    var i := NewlineIndex(text);
    if i == |text| then [text] else [text[..i]] + Split(text[i + 1..])
  }

  /** The lines that end in a newline. */
  function CompleteLines(text: string): seq<string> {
    Split(text)[..|Split(text)| - 1]
  }

  /** The text of some complete lines. */
  function Unlines(lines: seq<string>): string {
    if lines == [] then "" else lines[0] + [NEWLINE] + Unlines(lines[1..])
  }

  ghost predicate NewlineFree(line: string) {
    NEWLINE !in line
  }

  ghost predicate AllNewlineFree(lines: seq<string>) {
    forall i :: 0 <= i < |lines| ==> NewlineFree(lines[i])
  }

  lemma FrontOfCons<T>(first: T, rest: seq<T>)
    requires rest != []
    ensures ([first] + rest)[..|[first] + rest| - 1] == [first] + rest[..|rest| - 1]
    ensures ([first] + rest)[|[first] + rest| - 1] == rest[|rest| - 1]
  {
  }

  /** What the unfinished last part of a text is. */
  function LastPart(text: string): string {
    Split(text)[|Split(text)| - 1]
  }

  /** Splitting once, at the first newline. */
  lemma SplitOnce(text: string, i: nat)
    requires i == NewlineIndex(text) && i < |text|
    ensures Split(text) == [text[..i]] + Split(text[i + 1..])
    ensures CompleteLines(text) == [text[..i]] + CompleteLines(text[i + 1..])
    ensures LastPart(text) == LastPart(text[i + 1..])
  {
    FrontOfCons(text[..i], Split(text[i + 1..]));
  }

  lemma FirstLine(line: string, rest: string)
    requires NewlineFree(line)
    ensures Split(line + [NEWLINE] + rest) == [line] + Split(rest)
    ensures CompleteLines(line + [NEWLINE] + rest) == [line] + CompleteLines(rest)
  {
    var text := line + [NEWLINE] + rest;
    var i := NewlineIndex(text);
    assert forall k :: 0 <= k < |line| ==> text[k] == line[k];
    assert text[|line|] == NEWLINE;
    assert i == |line|;
    assert text[..i] == line && text[i + 1..] == rest;
  }

  lemma {:induction false} SplitNewlineFree(text: string)
    ensures AllNewlineFree(Split(text))
    decreases |text|
  {
    var i := NewlineIndex(text);
    if i < |text| {
      SplitNewlineFree(text[i + 1..]);
    }
  }

  /** Text is its complete lines followed by an unfinished one. */
  lemma {:induction false} LinesAndRest(text: string)
    ensures text == Unlines(CompleteLines(text)) + LastPart(text)
    decreases |text|
  {
    var i := NewlineIndex(text);
    if i < |text| {
      var line, tail := text[..i], text[i + 1..];
      LinesAndRest(tail);
      SplitOnce(text, i);
      LineInFront(line, CompleteLines(tail), LastPart(tail));
      assert text == line + [NEWLINE] + tail;
    } else {
      assert Split(text) == [text] && CompleteLines(text) == [];
    }
  }

  lemma LineInFront(line: string, lines: seq<string>, last: string)
    ensures Unlines([line] + lines) + last == line + [NEWLINE] + (Unlines(lines) + last)
  {
    assert ([line] + lines)[1..] == lines;
  }

  /** Complete lines in front of some text are complete lines of the whole. */
  lemma {:induction false} CompleteConcat(lines: seq<string>, rest: string)
    requires AllNewlineFree(lines)
    ensures CompleteLines(Unlines(lines) + rest) == lines + CompleteLines(rest)
  {
    if lines == [] {
      assert Unlines(lines) + rest == rest;
    } else {
      CompleteConcat(lines[1..], rest);
      var tail := Unlines(lines[1..]) + rest;
      assert Unlines(lines) + rest == lines[0] + [NEWLINE] + tail;
      FirstLine(lines[0], tail);
    }
  }

  lemma {:induction false} UnlinesConcat(a: seq<string>, b: seq<string>)
    ensures Unlines(a + b) == Unlines(a) + Unlines(b)
  {
    if a == [] {
      assert a + b == b;
    } else {
      assert (a + b)[1..] == a[1..] + b;
      UnlinesConcat(a[1..], b);
    }
  }

  /** The text that follows its first n complete lines. */
  lemma AfterLines(text: string, n: nat) returns (rest: string)
    requires n <= |CompleteLines(text)|
    ensures text == Unlines(CompleteLines(text)[..n]) + rest
    ensures CompleteLines(rest) == CompleteLines(text)[n..]
  {
    var lines := CompleteLines(text);
    var last := LastPart(text);
    LinesAndRest(text);
    rest := Unlines(lines[n..]) + last;
    UnlinesConcat(lines[..n], lines[n..]);
    assert lines[..n] + lines[n..] == lines;
    Associate(Unlines(lines[..n]), Unlines(lines[n..]), last);
    RestLines(text, n);
  }

  lemma RestLines(text: string, n: nat)
    requires n <= |CompleteLines(text)|
    ensures CompleteLines(Unlines(CompleteLines(text)[n..]) + LastPart(text)) == CompleteLines(text)[n..]
  {
    var lines := CompleteLines(text)[n..];
    SplitNewlineFree(text);
    CompleteConcat(lines, LastPart(text));
    LastFragment(text);
    assert lines + [] == lines;
  }

  lemma {:induction false} LastFragment(text: string)
    ensures CompleteLines(LastPart(text)) == []
    decreases |text|
  {
    var i := NewlineIndex(text);
    if i < |text| {
      SplitOnce(text, i);
      LastFragment(text[i + 1..]);
    } else {
      assert Split(text) == [text];
    }
  }

  /** Appending keeps every line that was complete before. */
  lemma AppendKeepsLines(text: string, chunk: string)
    ensures |CompleteLines(text)| <= |CompleteLines(text + chunk)|
    ensures CompleteLines(text + chunk)[..|CompleteLines(text)|] == CompleteLines(text)
  {
    var lines := CompleteLines(text);
    var last := LastPart(text);
    LinesAndRest(text);
    SplitNewlineFree(text);
    assert text + chunk == Unlines(lines) + (last + chunk);
    CompleteConcat(lines, last + chunk);
  }

  /** Whether the text ends in a newline shows in the last part. */
  lemma {:induction false} EndsWithNewline(text: string)
    requires text != "" && text[|text| - 1] == NEWLINE
    ensures LastPart(text) == ""
    decreases |text|
  {
    var i := NewlineIndex(text);
    assert i < |text|;
    SplitOnce(text, i);
    var tail := text[i + 1..];
    if tail != "" {
      assert tail[|tail| - 1] == text[|text| - 1];
      EndsWithNewline(tail);
    }
  }

  // --- batches ---

  /** The lines worth a record. */
  function Kept(lines: seq<string>): seq<string> {
    if lines == [] then []
    else
      var last := lines[|lines| - 1];
      Kept(lines[..|lines| - 1]) + if Blank(last) then [] else [last]
  }

  /** How many lines a batch consumes: it stops when full, and skips blank lines until then. */
  function Taken(lines: seq<string>, limit: int): (n: nat)
    ensures n <= |lines|
    decreases |lines|
  {
    if lines == [] || limit <= 0 then 0
    else 1 + Taken(lines[1..], if Blank(lines[0]) then limit else limit - 1)
  }

  lemma KeptStep(lines: seq<string>, line: string)
    ensures Kept(lines + [line]) == Kept(lines) + if Blank(line) then [] else [line]
  {
    assert (lines + [line])[..|lines|] == lines;
  }

  lemma {:induction false} KeptConcat(a: seq<string>, b: seq<string>)
    ensures Kept(a + b) == Kept(a) + Kept(b)
  {
    if b == [] {
      assert a + b == a;
    } else {
      var n := |b| - 1;
      KeptConcat(a, b[..n]);
      assert (a + b)[..|a + b| - 1] == a + b[..n];
    }
  }

  lemma KeptCons(line: string, rest: seq<string>)
    ensures Kept([line] + rest) == if Blank(line) then Kept(rest) else [line] + Kept(rest)
  {
    KeptConcat([line], rest);
    KeptStep([], line);
    assert [] + [line] == [line];
  }

  /** A batch delivers as many lines as asked for, or everything that is left. */
  lemma {:induction false} TakenFillsBatch(lines: seq<string>, limit: int)
    requires limit >= 0
    ensures |Kept(lines[..Taken(lines, limit)])| == if |Kept(lines)| < limit then |Kept(lines)| else limit
    ensures |Kept(lines)| < limit ==> Taken(lines, limit) == |lines|
    decreases |lines|
  {
    if lines == [] || limit == 0 {
      assert lines[..Taken(lines, limit)] == [];
    } else {
      var line, rest := lines[0], lines[1..];
      var more := if Blank(line) then limit else limit - 1;
      var n := Taken(rest, more);
      TakenFillsBatch(rest, more);
      assert lines == [line] + rest && Taken(lines, limit) == n + 1;
      TakeCons(line, rest, n);
      KeptCons(line, rest[..n]);
      KeptCons(line, rest);
    }
  }

  lemma TakeCons(line: string, rest: seq<string>, n: nat)
    requires n <= |rest|
    ensures ([line] + rest)[..n + 1] == [line] + rest[..n]
  {
  }
}
