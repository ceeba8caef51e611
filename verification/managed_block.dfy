/** The block that is kept up to date inside Oh My Pi's append-system-prompt file. */
module ManagedBlock {
  import opened Wrappers
  import opened TranscriptLines
  import opened TextSearch

  const START := "<!-- tool-evolver:catalog:start -->"
  const END := "<!-- tool-evolver:catalog:end -->"
  const NOTE :=
    "These tools are exposed over MCP. Invoke them through the `xd://` tool-device surface rather than re-running the underlying shell commands manually."
  const INVOKE := "- **Invoke**: write the JSON arguments to `"
  const EXAMPLE := " (e.g. `write` `{\"path\": \""
  const NO_INPUT := ", \"content\": \"{}\"}` when the tool takes no inputs)."
  const DOCS := "- **Docs**: `read` `"
  const RETURNS := " returns the tool's documentation."
  const TITLE := "#### Invocation: "

  function Join(parts: seq<string>, separator: string): string {
    if parts == [] then ""
    else if |parts| == 1 then parts[0]
    else parts[0] + separator + Join(parts[1..], separator)
  }

  /** `name.replace(/-/g, "_")` */
  function Underscored(name: string): (r: string)
    ensures |r| == |name| && '-' !in r
    ensures forall i :: 0 <= i < |name| ==> r[i] == if name[i] == '-' then '_' else name[i]
  {
    if name == "" then "" else [if name[0] == '-' then '_' else name[0]] + Underscored(name[1..])
  }

  function Device(toolName: string, serverName: string): string {
    "xd://mcp__" + Underscored(serverName) + "_" + toolName
  }

  function Snippet(toolName: string, serverName: string): string {
    var path := Device(toolName, serverName);
    Join([INVOKE + path + "`" + (EXAMPLE + path + "\"" + NO_INPUT), DOCS + path + "`" + RETURNS], "\n")
  }

  function ToolLines(toolNames: seq<string>, serverName: string): seq<string> {
    if toolNames == [] then []
    else
      var front, last := toolNames[..|toolNames| - 1], toolNames[|toolNames| - 1];
      ToolLines(front, serverName) + ["", TITLE + "`" + last + "`", Snippet(last, serverName)]
  }

  function Block(markdown: string, toolNames: seq<string>, serverName: string): string {
    Join([START, "", Trim(markdown), "", NOTE] + ToolLines(toolNames, serverName) + ["", END], "\n")
  }

  method BuildBlock(markdown: string, toolNames: seq<string>, serverName: string) returns (block: string)
    ensures block == Block(markdown, toolNames, serverName)
  {
    var head := [START, "", Trim(markdown), "", NOTE];
    var lines := head;
    var i := 0;
    while i < |toolNames|
      invariant i <= |toolNames|
      invariant lines == head + ToolLines(toolNames[..i], serverName)
    {
      assert toolNames[..i + 1][..i] == toolNames[..i];
      lines := lines + ["", TITLE + "`" + toolNames[i] + "`"];
      lines := lines + [Snippet(toolNames[i], serverName)];
      i := i + 1;
    }
    assert toolNames[..i] == toolNames;
    lines := lines + ["", END];
    block := Join(lines, "\n");
  }

  // --- the upsert ---

  datatype Action = Created | Updated | Removed | Unchanged

  /** The file afterwards (none if there is still no file) and what was done. */
  datatype Outcome = Outcome(file: Option<string>, action: Action)

  function NonEmpty(parts: seq<string>): seq<string> {
    if parts == [] then [] else (if parts[0] == "" then [] else [parts[0]]) + NonEmpty(parts[1..])
  }

  predicate HasBlock(text: string) {
    0 <= IndexOf(text, START) < IndexOf(text, END)
  }

  function Before(text: string): string
    requires HasBlock(text)
  {
    text[..IndexOf(text, START)]
  }

  function Managed(text: string): string
    requires HasBlock(text)
  {
    text[IndexOf(text, START)..IndexOf(text, END) + |END|]
  }

  function After(text: string): string
    requires HasBlock(text)
  {
    text[IndexOf(text, END) + |END|..]
  }

  function Upsert(existing: Option<string>, block: Option<string>): Outcome {
    if existing.Some? && HasBlock(existing.value) then
      var before, after := TrimEnd(Before(existing.value)), TrimStart(After(existing.value));
      match block
      case Some(b) =>
        var next := Join(NonEmpty([before, b, after]), "\n\n") + "\n";
        Outcome(Some(next), if next == existing.value then Unchanged else Updated)
      case None =>
        var next := Join(NonEmpty([before, after]), "\n\n");
        Outcome(Some(if next != "" then next + "\n" else ""), Removed)
    else
      match block
      case Some(b) =>
        var next := if existing.Some? && Trim(existing.value) != "" then TrimEnd(existing.value) + "\n\n" + b + "\n" else b + "\n";
        Outcome(Some(next), if existing.None? then Created else Updated)
      case None => Outcome(existing, Unchanged)
  }

  function WantedBlock(markdown: Option<string>, toolNames: seq<string>, serverName: string): Option<string> {
    if markdown.Some? && Trim(markdown.value) != "" then Some(Block(Trim(markdown.value), toolNames, serverName)) else None
  }

  method ApplyOmpCatalogInstructions(existing: Option<string>, markdown: Option<string>, toolNames: seq<string>, serverName: string)
    returns (outcome: Outcome)
    ensures outcome == Upsert(existing, WantedBlock(markdown, toolNames, serverName))
  {
    var block: Option<string> := None;
    if markdown.Some? && Trim(markdown.value) != "" {
      var text := BuildBlock(Trim(markdown.value), toolNames, serverName);
      block := Some(text);
    }
    outcome := Rewrite(existing, block);
  }

  method Rewrite(existing: Option<string>, block: Option<string>) returns (outcome: Outcome)
    ensures outcome == Upsert(existing, block)
  {
    var startIdx, endIdx := -1, -1;
    if existing.Some? {
      startIdx, endIdx := IndexOf(existing.value, START), IndexOf(existing.value, END);
    }
    var next := "";
    if existing.Some? && startIdx != -1 && endIdx > startIdx {
      var before := TrimEnd(existing.value[..startIdx]);
      var after := TrimStart(existing.value[endIdx + |END|..]);
      if block.Some? {
        next := Join(NonEmpty([before, block.value, after]), "\n\n") + "\n";
        return Outcome(Some(next), if next == existing.value then Unchanged else Updated);
      }
      next := Join(NonEmpty([before, after]), "\n\n");
      next := if |next| > 0 then next + "\n" else "";
      return Outcome(Some(next), Removed);
    }
    if block.None? {
      return Outcome(existing, Unchanged);
    }
    if existing.Some? && |Trim(existing.value)| > 0 {
      next := TrimEnd(existing.value) + "\n\n" + block.value + "\n";
    } else {
      next := block.value + "\n";
    }
    return Outcome(Some(next), if existing.None? then Created else Updated);
  }

  // --- the parts of a file ---

  /** A block can be told from its surroundings: it begins with the start marker and its only end marker is its end. */
  ghost predicate Clean(block: string) {
    && START <= block
    && |START| <= IndexOf(block, END) == |block| - |END|
  }

  /** A text in front of a block, a block and a text behind it, put together. */
  function Layout(p: string, b: string, q: string): string {
    Lead(p) + b + Trail(q)
  }

  function Lead(p: string): string {
    if p == "" then "" else p + "\n\n"
  }

  function Trail(q: string): string {
    if q == "" then "\n" else "\n\n" + q + "\n"
  }

  lemma JoinIsLayout(p: string, b: string, q: string)
    requires b != ""
    ensures Join(NonEmpty([p, b, q]), "\n\n") + "\n" == Layout(p, b, q)
  {
    assert [p, b, q][1..] == [b, q] && [b, q][1..] == [q] && [q][1..] == [];
    assert NonEmpty([q]) == if q == "" then [] else [q];
    assert NonEmpty([b, q]) == [b] + NonEmpty([q]);
    if q != "" {
      assert [b, q][1..] == [q];
      assert Join([b, q], "\n\n") == b + "\n\n" + q;
    }
    if p != "" {
      assert ([p] + NonEmpty([b, q]))[1..] == NonEmpty([b, q]);
    }
  }

  ghost predicate Unmarked(s: string) {
    !Contains(s, START) && !Contains(s, END)
  }

  /** A marker in a laid-out text is found in front of the block, or else where the block has it. */
  lemma MarkerInLayout(p: string, b: string, q: string, m: string)
    requires m != "" && '\n' !in m && IndexOf(b, m) >= 0
    ensures IndexOf(Layout(p, b, q), m) == if IndexOf(p, m) >= 0 then IndexOf(p, m) else |Lead(p)| + IndexOf(b, m)
  {
    var rest := b + Trail(q);
    FirstInFront(b, Trail(q), m);
    LacksFirst("", m);
    if p == "" {
      assert Layout(p, b, q) == rest;
    } else {
      TwoNewlines(p, rest);
      assert Layout(p, b, q) == Lead(p) + rest;
      FirstAround(p, '\n', "" + ['\n'] + rest, m);
      FirstAround("", '\n', rest, m);
    }
  }

  lemma TwoNewlines(p: string, rest: string)
    ensures p + "\n\n" + rest == p + ['\n'] + ("" + ['\n'] + rest)
  {
  }

  lemma StartFound(p: string, b: string, q: string)
    requires Clean(b)
    ensures IndexOf(Layout(p, b, q), START) == if IndexOf(p, START) >= 0 then IndexOf(p, START) else |Lead(p)|
  {
    StartOfClean(b);
    MarkerInLayout(p, b, q, START);
  }

  lemma EndFound(p: string, b: string, q: string)
    requires Clean(b)
    ensures IndexOf(Layout(p, b, q), END) == if IndexOf(p, END) >= 0 then IndexOf(p, END) else |Lead(p)| + |b| - |END|
  {
    MarkerInLayout(p, b, q, END);
  }

  lemma StartOfClean(b: string)
    requires Clean(b)
    ensures IndexOf(b, START) == 0
  {
    assert OccursAt(b, START, 0);
    FirstIs(b, START, 0);
  }

  /** The parts of a laid-out text are what was put in, if the text in front has no marker. */
  lemma LayoutParts(p: string, b: string, q: string)
    requires Clean(b) && Unmarked(p)
    ensures var text := Layout(p, b, q);
            HasBlock(text) && Before(text) == Lead(p) && Managed(text) == b && After(text) == Trail(q)
  {
    StartFound(p, b, q);
    EndFound(p, b, q);
    PartsOf(Lead(p), b, Trail(q));
  }

  lemma PartsOf(a: string, b: string, c: string)
    requires |b| >= |END| + |START| && IndexOf(a + b + c, START) == |a| && IndexOf(a + b + c, END) == |a| + |b| - |END|
    ensures HasBlock(a + b + c) && Before(a + b + c) == a && Managed(a + b + c) == b && After(a + b + c) == c
  {
    Cut(a, b, c);
  }

  lemma Cut(a: string, b: string, c: string)
    ensures (a + b + c)[..|a|] == a
    ensures (a + b + c)[|a|..|a| + |b|] == b
    ensures (a + b + c)[|a| + |b|..] == c
  {
  }

  lemma TrimLead(p: string)
    requires TrimEnd(p) == p
    ensures TrimEnd(Lead(p)) == p
  {
    TrimEndSpace(p, "\n\n");
  }

  lemma TrimTrail(q: string)
    requires TrimStart(q) == q
    ensures TrimStart(Trail(q)) == if q == "" then "" else q + "\n"
  {
    if q == "" {
      TrimStartSpace("\n", "");
      assert "\n" + "" == "\n";
    } else {
      TrimStartSpace("\n\n", q + "\n");
      assert Trail(q) == "\n\n" + (q + "\n");
      TrimStartIs(q);
    }
  }

  /** The text in front of the first marker has none. */
  lemma FrontUnmarked(text: string)
    requires HasBlock(text)
    ensures Unmarked(Before(text)) && Unmarked(TrimEnd(Before(text)))
  {
    var n := IndexOf(text, START);
    PrefixLacks(text, n, START);
    PrefixLacks(text, n, END);
    TrimEndIs(Before(text));
    var k := |TrimEnd(Before(text))|;
    assert TrimEnd(Before(text)) == text[..k];
    PrefixLacks(text, k, START);
    PrefixLacks(text, k, END);
  }

  lemma PrefixLacks(s: string, n: nat, m: string)
    requires n <= |s| && m != "" && (IndexOf(s, m) < 0 || IndexOf(s, m) >= n)
    ensures !Contains(s[..n], m)
  {
    forall i: nat ensures !OccursAt(s[..n], m, i) {
      if i + |m| <= n {
        assert s[..n][i..i + |m|] == s[i..i + |m|];
        assert !OccursAt(s, m, i);
      }
    }
  }

  // --- the laws ---

  /** What stays of a file around its block. */
  function FrontOf(text: string): string {
    if HasBlock(text) then TrimEnd(Before(text)) else TrimEnd(text)
  }

  function BackOf(text: string): string {
    if HasBlock(text) then TrimStart(After(text)) else ""
  }

  /** A file in which the block can be found, or which has no marker at all. */
  ghost predicate Orderly(text: string) {
    HasBlock(text) || Unmarked(text)
  }

  lemma FrontIs(text: string)
    requires Orderly(text)
    ensures Unmarked(FrontOf(text)) && TrimEnd(FrontOf(text)) == FrontOf(text) && TrimStart(BackOf(text)) == BackOf(text)
  {
    if HasBlock(text) {
      FrontUnmarked(text);
      TrimEndTwice(Before(text));
      TrimStartTwice(After(text));
    } else {
      TrimEndIs(text);
      TrimEndTwice(text);
      var k := |TrimEnd(text)|;
      assert TrimEnd(text) == text[..k];
      PrefixLacks(text, k, START);
      PrefixLacks(text, k, END);
    }
  }

  /** Whatever the file was, the upsert lays out its front, the block and its back. */
  lemma UpsertLaysOut(text: string, b: string)
    requires b != ""
    ensures Upsert(Some(text), Some(b)).file == Some(Layout(FrontOf(text), b, BackOf(text)))
  {
    JoinIsLayout(FrontOf(text), b, BackOf(text));
    BlankIff(text);
  }

  /** The block is found again, and the text around it survives up to white space next to it. */
  lemma UpsertKeepsOutside(text: string, b: string)
    requires Clean(b) && Orderly(text)
    ensures var next := Upsert(Some(text), Some(b)).file;
            && next.Some? && HasBlock(next.value) && Managed(next.value) == b
            && FrontOf(next.value) == FrontOf(text)
            && BackOf(next.value) == if BackOf(text) == "" then "" else BackOf(text) + "\n"
  {
    FrontIs(text);
    UpsertLaysOut(text, b);
    LayoutParts(FrontOf(text), b, BackOf(text));
    TrimLead(FrontOf(text));
    TrimTrail(BackOf(text));
  }

  /** The second of two upserts wins; text behind the block has gained one newline at its end. */
  lemma LastBlockWins(text: string, first: string, second: string)
    requires Clean(first) && Clean(second) && Orderly(text)
    ensures Upsert(Upsert(Some(text), Some(first)).file, Some(second)).file ==
            Some(Upsert(Some(text), Some(second)).file.value + if BackOf(text) == "" then "" else "\n")
  {
    UpsertKeepsOutside(text, first);
    var once := Upsert(Some(text), Some(first)).file.value;
    UpsertLaysOut(once, second);
    UpsertLaysOut(text, second);
    GrowTrail(FrontOf(text), second, BackOf(text));
  }

  lemma GrowTrail(p: string, b: string, q: string)
    ensures q != "" ==> Layout(p, b, q + "\n") == Layout(p, b, q) + "\n"
    ensures Layout(p, b, q) + "" == Layout(p, b, q)
  {
    if q != "" {
      assert "\n\n" + (q + "\n") + "\n" == ("\n\n" + q + "\n") + "\n";
      assert Lead(p) + b + (Trail(q) + "\n") == (Lead(p) + b + Trail(q)) + "\n";
    }
  }

  /** Applying the same block again changes nothing if and only if nothing but white space follows the block. */
  lemma ReapplyIff(text: string, b: string)
    requires Clean(b) && Orderly(text)
    ensures var once := Upsert(Some(text), Some(b)).file;
            Upsert(once, Some(b)) == if BackOf(text) == "" then Outcome(once, Unchanged) else Outcome(Some(once.value + "\n"), Updated)
  {
    LastBlockWins(text, b, b);
    UpsertKeepsOutside(text, b);
  }

  /** Putting a block into a file without one and taking it out again leaves the file as it was up to white space at its end. */
  lemma InsertThenRemove(text: string, b: string)
    requires Clean(b) && Unmarked(text)
    ensures var removed := Upsert(Upsert(Some(text), Some(b)).file, None);
            && removed == Outcome(Some(if Blank(text) then "" else TrimEnd(text) + "\n"), Removed)
            && TrimEnd(removed.file.value) == TrimEnd(text)
  {
    UpsertKeepsOutside(text, b);
    var once := Upsert(Some(text), Some(b)).file.value;
    assert BackOf(text) == "" && FrontOf(once) == TrimEnd(text) && BackOf(once) == "";
    RemovedIs(once);
    BlankIff(text);
    TrimEndSpace(TrimEnd(text), "\n");
    TrimEndTwice(text);
  }

  lemma JoinTwo(p: string, q: string)
    ensures Join(NonEmpty([p, q]), "\n\n") == if p == "" then q else if q == "" then p else p + "\n\n" + q
  {
    assert [p, q][1..] == [q] && [q][1..] == [];
    assert NonEmpty([q]) == if q == "" then [] else [q];
    if p != "" && q != "" {
      assert NonEmpty([p, q]) == [p, q];
    }
  }

  /** Taking the block out does not depend on which block was put in. */
  lemma RemoveForgets(text: string, b: string)
    requires Clean(b) && HasBlock(text)
    ensures var removed := Upsert(Some(text), None).file.value;
            Upsert(Upsert(Some(text), Some(b)).file, None).file.value == removed + if BackOf(text) == "" then "" else "\n"
  {
    UpsertKeepsOutside(text, b);
    RemovedIs(text);
    RemovedIs(Upsert(Some(text), Some(b)).file.value);
    RemainsGrow(FrontOf(text), BackOf(text));
  }

  lemma RemainsGrow(p: string, q: string)
    ensures q != "" ==> Remains(p, q + "\n") == Remains(p, q) + "\n"
    ensures Remains(p, q) + "" == Remains(p, q)
  {
    if q != "" && p != "" {
      assert p + "\n\n" + (q + "\n") + "\n" == (p + "\n\n" + q + "\n") + "\n";
    }
  }

  /** What is left when the block goes. */
  function Remains(p: string, q: string): string {
    if p == "" && q == "" then "" else (if p == "" then q else if q == "" then p else p + "\n\n" + q) + "\n"
  }

  lemma RemovedIs(text: string)
    requires HasBlock(text)
    ensures Upsert(Some(text), None) == Outcome(Some(Remains(FrontOf(text), BackOf(text))), Removed)
  {
    JoinTwo(FrontOf(text), BackOf(text));
  }

  lemma TrimKeeps(text: string, m: string)
    requires m != "" && !IsSpace(m[|m| - 1])
    ensures Contains(text, m) ==> Contains(TrimEnd(text), m)
  {
    if Contains(text, m) {
      var i: nat :| OccursAt(text, m, i);
      var k := |TrimEnd(text)|;
      TrimEndIs(text);
      assert text[i..i + |m|][|m| - 1] == text[i + |m| - 1];
      forall j | k <= j < |text| ensures IsSpace(text[j]) {
        assert text[j] == text[k..][j - k];
      }
      assert i + |m| <= k;
      assert TrimEnd(text)[i..i + |m|] == text[i..i + |m|];
      assert OccursAt(TrimEnd(text), m, i);
    }
  }

  /** After an insertion the block itself is what is found, if and only if the file had no marker. */
  lemma InsertFoundIff(text: string, b: string)
    requires Clean(b) && !HasBlock(text)
    ensures var next := Upsert(Some(text), Some(b)).file.value;
            (HasBlock(next) && Managed(next) == b && FrontOf(next) == TrimEnd(text)) <==> Unmarked(text)
  {
    if Unmarked(text) {
      UpsertKeepsOutside(text, b);
    } else {
      UpsertLaysOut(text, b);
      TrimKeeps(text, START);
      TrimKeeps(text, END);
      if Contains(TrimEnd(text), START) {
        StrayStart(TrimEnd(text), b);
      } else {
        StrayEnd(TrimEnd(text), b);
      }
    }
  }

  /** A start marker in front is taken for the start of the block. */
  lemma StrayStart(p: string, b: string)
    requires Clean(b) && Contains(p, START)
    ensures HasBlock(Layout(p, b, "")) ==> FrontOf(Layout(p, b, "")) != p
  {
    var next := Layout(p, b, "");
    StartFound(p, b, "");
    if HasBlock(next) {
      TrimEndIs(Before(next));
    }
  }

  /** An end marker in front hides the block. */
  lemma StrayEnd(p: string, b: string)
    requires Clean(b) && !Contains(p, START) && Contains(p, END)
    ensures !HasBlock(Layout(p, b, ""))
  {
    StartFound(p, b, "");
    EndFound(p, b, "");
  }
}
