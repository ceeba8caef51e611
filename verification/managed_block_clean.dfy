/** Which catalogs give a block that can be found again. */
module ManagedBlockClean {
  import opened Wrappers
  import opened TranscriptLines
  import opened TextSearch
  import opened ManagedBlock

  lemma LacksSome(s: string, m: string, k: nat)
    requires k < |m| && m[k] !in s
    ensures !Contains(s, m)
  {
    forall i: nat ensures !OccursAt(s, m, i) {
      if i + |m| <= |s| {
        assert s[i..i + |m|][k] == s[i + k];
      }
    }
  }

  ghost predicate AnyContains(lines: seq<string>, m: string) {
    exists i :: 0 <= i < |lines| && Contains(lines[i], m)
  }

  lemma AnyCons(first: string, rest: seq<string>, m: string)
    ensures AnyContains([first] + rest, m) <==> Contains(first, m) || AnyContains(rest, m)
  {
    var lines := [first] + rest;
    if AnyContains(rest, m) {
      var i :| 0 <= i < |rest| && Contains(rest[i], m);
      assert lines[i + 1] == rest[i];
    }
    if AnyContains(lines, m) {
      var i :| 0 <= i < |lines| && Contains(lines[i], m);
      assert i == 0 || lines[i] == rest[i - 1];
    }
    assert lines[0] == first;
  }

  lemma AnyConcat(a: seq<string>, b: seq<string>, m: string)
    ensures AnyContains(a + b, m) <==> AnyContains(a, m) || AnyContains(b, m)
  {
    if AnyContains(a, m) {
      var i :| 0 <= i < |a| && Contains(a[i], m);
      assert (a + b)[i] == a[i];
    }
    if AnyContains(b, m) {
      var i :| 0 <= i < |b| && Contains(b[i], m);
      assert (a + b)[|a| + i] == b[i];
    }
  }

  /** Lines contain a marker without newlines exactly when one of them does. */
  lemma {:induction false} JoinContains(lines: seq<string>, m: string)
    requires m != "" && '\n' !in m
    ensures Contains(Join(lines, "\n"), m) <==> AnyContains(lines, m)
  {
    LacksFirst("", m);
    if |lines| == 1 {
      assert lines == [lines[0]] + [];
      AnyCons(lines[0], [], m);
    } else if lines != [] {
      var rest := lines[1..];
      JoinContains(rest, m);
      ContainsAround(lines[0], '\n', Join(rest, "\n"), m);
      assert lines == [lines[0]] + rest;
      AnyCons(lines[0], rest, m);
    }
  }

  /** The first of two texts joined by characters foreign to m. */
  lemma {:induction false} JoinLast(lines: seq<string>, last: string)
    requires lines != []
    ensures Join(lines + [last], "\n") == Join(lines, "\n") + ['\n'] + last
  {
    if |lines| == 1 {
      assert (lines + [last])[1..] == [last];
    } else {
      assert (lines + [last])[1..] == lines[1..] + [last];
      JoinLast(lines[1..], last);
      assert lines[0] + "\n" + (Join(lines[1..], "\n") + ['\n'] + last) == (lines[0] + "\n" + Join(lines[1..], "\n")) + ['\n'] + last;
    }
  }

  // The fixed phrases have no marker in them.

  lemma PlainSnippet()
    ensures !Contains(INVOKE, END) && !Contains(EXAMPLE, END) && !Contains(DOCS, END)
  {
    LacksFirst(INVOKE, END);
    LacksFirst(EXAMPLE, END);
    LacksFirst(DOCS, END);
  }

  lemma PlainNoInput()
    ensures !Contains(NO_INPUT, END)
  {
    var a, b := ", \"content\": \"{}\"}` when the ", "tool takes no inputs).";
    assert '<' !in a && '<' !in b;
    assert NO_INPUT == a + b;
    LacksFirst(NO_INPUT, END);
  }

  lemma PlainReturns()
    ensures !Contains(RETURNS, END)
  {
    LacksFirst(RETURNS, END);
  }

  lemma PlainShort()
    ensures !Contains(TITLE, END) && !Contains("", END) && !Contains("d:", END) && !Contains("mcp", END)
  {
    LacksFirst(TITLE, END);
    LacksFirst("", END);
    LacksFirst("d:", END);
    LacksFirst("mcp", END);
  }

  // A long literal is checked a stretch at a time, each stretch relying on the one before.

  lemma PlainNoteStart()
    ensures '<' !in "These tools are exposed over MCP. Invoke them through the `xd://` "
  {
    assert '<' !in "These tools are exposed ";
    assert '<' !in "These tools are exposed over MCP. Invoke them ";
  }

  lemma PlainNoteMiddle()
    ensures '<' !in "These tools are exposed over MCP. Invoke them through the `xd://` tool-device surface rather than re-running "
  {
    PlainNoteStart();
    assert '<' !in "These tools are exposed over MCP. Invoke them through the `xd://` tool-device surface ";
  }

  lemma PlainNote()
    ensures !Contains(NOTE, END)
  {
    PlainNoteMiddle();
    assert '<' !in "These tools are exposed over MCP. Invoke them through the `xd://` tool-device surface rather than re-running the underlying ";
    assert '<' !in NOTE;
    LacksFirst(NOTE, END);
  }

  lemma NameLine(name: string)
    ensures Contains(TITLE + "`" + name + "`", END) <==> Contains(name, END)
  {
    PlainShort();
    ContainsAround(TITLE, '`', name + "`", END);
    ContainsAround(name, '`', "", END);
    Quoted(TITLE, name);
  }

  lemma Quoted(title: string, name: string)
    ensures title + ['`'] + (name + "`") == title + "`" + name + "`"
    ensures name + ['`'] + "" == name + "`"
  {
  }

  /** A tool's path between other text and a quoting character contains a marker only if the tool's name does. */
  lemma DeviceContains(head: string, tool: string, server: string, quote: char, tail: string)
    requires quote == '`' || quote == '"'
    ensures Contains(head + Device(tool, server) + [quote] + tail, END) <==>
            Contains(head, END) || Contains(tool, END) || Contains(tail, END)
  {
    NoDash(Underscored(server));
    MarkerChars();
    MarkerQuotes();
    PlainShort();
    DeviceHas(head, tool, server, quote, tail, END);
  }

  lemma NoDash(s: string)
    requires '-' !in s
    ensures !Contains(s, END)
  {
    LacksSome(s, END, 2);
  }

  lemma MarkerChars()
    ensures 'x' !in END && '/' !in END && '_' !in END
  {
  }

  lemma MarkerQuotes()
    ensures '`' !in END && '"' !in END && END != ""
  {
  }

  lemma DeviceHas(head: string, tool: string, server: string, quote: char, tail: string, m: string)
    requires m != "" && quote !in m && 'x' !in m && '/' !in m && '_' !in m
    requires !Contains(Underscored(server), m) && !Contains("", m) && !Contains("d:", m) && !Contains("mcp", m)
    ensures Contains(head + Device(tool, server) + [quote] + tail, m) <==> Contains(head, m) || Contains(tool, m) || Contains(tail, m)
  {
    var u := Underscored(server);
    DeviceParts(head, u, tool, quote, tail, m);
    DeviceAs(head, u, tool, [quote] + tail);
    assert tool + [quote] + tail == tool + ([quote] + tail);
    assert head + Device(tool, server) + [quote] + tail == head + Device(tool, server) + ([quote] + tail);
  }

  lemma DeviceAs(head: string, u: string, tool: string, rest: string)
    ensures head + ("xd://mcp__" + u + "_" + tool) + rest ==
            head + ['x'] + ("d:" + ['/'] + ("" + ['/'] + ("mcp" + ['_'] + ("" + ['_'] + (u + ['_'] + (tool + rest))))))
  {
  }

  lemma DeviceParts(head: string, u: string, tool: string, quote: char, tail: string, m: string)
    requires m != "" && quote !in m && 'x' !in m && '/' !in m && '_' !in m
    requires !Contains(u, m) && !Contains("", m) && !Contains("d:", m) && !Contains("mcp", m)
    ensures Contains(head + ['x'] + ("d:" + ['/'] + ("" + ['/'] + ("mcp" + ['_'] + ("" + ['_'] + (u + ['_'] + (tool + [quote] + tail)))))), m)
            <==> Contains(head, m) || Contains(tool, m) || Contains(tail, m)
  {
    var r := tool + [quote] + tail;
    ContainsAround(tool, quote, tail, m);
    ContainsAround(u, '_', r, m);
    r := u + ['_'] + r;
    ContainsAround("", '_', r, m);
    r := "" + ['_'] + r;
    ContainsAround("mcp", '_', r, m);
    r := "mcp" + ['_'] + r;
    ContainsAround("", '/', r, m);
    r := "" + ['/'] + r;
    ContainsAround("d:", '/', r, m);
    r := "d:" + ['/'] + r;
    ContainsAround(head, 'x', r, m);
  }

  lemma SnippetContains(tool: string, server: string)
    ensures Contains(Snippet(tool, server), END) <==> Contains(tool, END)
  {
    var path := Device(tool, server);
    PlainSnippet();
    PlainNoInput();
    PlainReturns();
    DeviceContains(EXAMPLE, tool, server, '"', NO_INPUT);
    DeviceContains(INVOKE, tool, server, '`', EXAMPLE + path + ['"'] + NO_INPUT);
    DeviceContains(DOCS, tool, server, '`', RETURNS);
    var first := INVOKE + path + ['`'] + (EXAMPLE + path + ['"'] + NO_INPUT);
    var second := DOCS + path + ['`'] + RETURNS;
    ContainsAround(first, '\n', second, END);
    SnippetAs(tool, server);
  }

  lemma SnippetAs(tool: string, server: string)
    ensures var path := Device(tool, server);
            Snippet(tool, server) ==
            INVOKE + path + ['`'] + (EXAMPLE + path + ['"'] + NO_INPUT) + ['\n'] + (DOCS + path + ['`'] + RETURNS)
  {
    var path := Device(tool, server);
    JoinPair(INVOKE + path + "`" + (EXAMPLE + path + "\"" + NO_INPUT), DOCS + path + "`" + RETURNS);
  }

  lemma JoinPair(a: string, b: string)
    ensures Join([a, b], "\n") == a + ['\n'] + b
  {
    assert [a, b][1..] == [b];
  }

  lemma {:induction false} ToolLinesContain(tools: seq<string>, server: string)
    ensures AnyContains(ToolLines(tools, server), END) <==> AnyContains(tools, END)
  {
    if tools != [] {
      var front, last := tools[..|tools| - 1], tools[|tools| - 1];
      ToolLinesContain(front, server);
      var title := TITLE + "`" + last + "`";
      var snippet := Snippet(last, server);
      NameLine(last);
      SnippetContains(last, server);
      LacksFirst("", END);
      assert ["", title, snippet] == [""] + ([title] + ([snippet] + []));
      AnyCons("", [title] + ([snippet] + []), END);
      AnyCons(title, [snippet] + [], END);
      AnyCons(snippet, [], END);
      AnyConcat(ToolLines(front, server), ["", title, snippet], END);
      assert tools == front + [last];
      AnyConcat(front, [last], END);
      assert [last] == [last] + [];
      AnyCons(last, [], END);
    }
  }

  lemma StartLacksEnd()
    ensures !Contains(START, END)
  {
    forall i: nat ensures !OccursAt(START, END, i) {
      if i + |END| <= |START| {
        assert START[i..i + |END|][0] == START[i] && START[i..i + |END|][26] == START[i + 26];
      }
    }
  }

  /** A block can be found again exactly when neither the catalog text nor a tool name holds the end marker. */
  lemma BlockCleanIff(markdown: string, tools: seq<string>, server: string)
    ensures Clean(Block(markdown, tools, server)) <==> !Contains(Trim(markdown), END) && !AnyContains(tools, END)
  {
    var body := ["", Trim(markdown), "", NOTE] + ToolLines(tools, server) + [""];
    BodyContains(markdown, tools, server);
    JoinContains([START] + body, END);
    StartLacksEnd();
    AnyCons(START, body, END);
    BlockAs(START, Trim(markdown), NOTE, ToolLines(tools, server), END);
    JoinLast([START] + body, END);
    EndsClean(Join([START] + body, "\n"), Block(markdown, tools, server));
  }

  lemma BlockAs(start: string, markdown: string, note: string, lines: seq<string>, end: string)
    ensures var body := ["", markdown, "", note] + lines + [""];
            && [start, "", markdown, "", note] + lines + ["", end] == [start] + body + [end]
            && start <= Join([start] + body, "\n")
  {
    var body := ["", markdown, "", note] + lines + [""];
    assert ([start] + body)[1..] == body;
  }

  lemma EndsClean(front: string, block: string)
    requires block == front + ['\n'] + END && START <= front
    ensures Clean(block) <==> !Contains(front, END)
  {
    FirstAround(front, '\n', END, END);
    assert OccursAt(END, END, 0);
    FirstIs(END, END, 0);
    assert START <= block;
  }

  lemma BodyContains(markdown: string, tools: seq<string>, server: string)
    ensures AnyContains(["", Trim(markdown), "", NOTE] + ToolLines(tools, server) + [""], END) <==>
            Contains(Trim(markdown), END) || AnyContains(tools, END)
  {
    var lines := ToolLines(tools, server);
    PlainShort();
    PlainNote();
    ToolLinesContain(tools, server);
    AnyConcat(["", Trim(markdown), "", NOTE] + lines, [""], END);
    AnyConcat(["", Trim(markdown), "", NOTE], lines, END);
    var head := ["", Trim(markdown), "", NOTE];
    assert head == [""] + ([Trim(markdown)] + ([""] + ([NOTE] + [])));
    AnyCons("", [Trim(markdown)] + ([""] + ([NOTE] + [])), END);
    AnyCons(Trim(markdown), [""] + ([NOTE] + []), END);
    AnyCons("", [NOTE] + [], END);
    AnyCons(NOTE, [], END);
    assert [""] == [""] + [];
    AnyCons("", [], END);
  }

  // --- a block applied again in front of other text ---

  lemma LacksShort(s: string, m: string)
    requires |s| < |m|
    ensures !Contains(s, m)
  {
  }

  lemma PlainBlockClean(markdown: string)
    requires |markdown| < |END|
    ensures Clean(Block(markdown, [], "gateway"))
  {
    TrimEndIs(TrimStart(markdown));
    TrimStartIs(markdown);
    LacksShort(Trim(markdown), END);
    BlockCleanIff(markdown, [], "gateway");
  }

  lemma EmptyUnmarked()
    ensures Unmarked("")
  {
    LacksShort("", START);
    LacksShort("", END);
  }

  /** A note behind the block: writing the very same block again adds a newline at the end of the file. */
  lemma ReapplyExample()
    ensures var b := Block("Use the tools.", [], "gateway");
            var text := Layout("", b, "notes");
            Upsert(Some(text), Some(b)) == Outcome(Some(text + "\n"), Updated)
  {
    PlainBlockClean("Use the tools.");
    assert TrimStart("notes") == "notes";
    BackGrows(Block("Use the tools.", [], "gateway"), "notes");
  }

  lemma BackGrows(b: string, q: string)
    requires Clean(b) && q != "" && TrimStart(q) == q
    ensures Upsert(Some(Layout("", b, q)), Some(b)) == Outcome(Some(Layout("", b, q) + "\n"), Updated)
  {
    var text := Layout("", b, q);
    BackParts(b, q, text);
    UpsertLaysOut(text, b);
    GrowTrail("", b, q);
    ActionOf(text, b);
  }

  lemma BackParts(b: string, q: string, text: string)
    requires Clean(b) && q != "" && TrimStart(q) == q && text == Layout("", b, q)
    ensures HasBlock(text) && FrontOf(text) == "" && BackOf(text) == q + "\n"
  {
    EmptyUnmarked();
    LayoutParts("", b, q);
    TrimTrail(q);
  }

  lemma ActionOf(text: string, b: string)
    requires HasBlock(text)
    ensures var outcome := Upsert(Some(text), Some(b));
            outcome == Outcome(outcome.file, if outcome.file == Some(text) then Unchanged else Updated)
  {
  }

  // --- what is answered ---

  lemma RemainsShorter(text: string)
    requires HasBlock(text)
    ensures Upsert(Some(text), None).file != Some(text)
  {
    RemovedIs(text);
    TrimEndIs(Before(text));
    assert |text| == |Before(text)| + |Managed(text)| + |After(text)|;
    assert |FrontOf(text)| <= |Before(text)| && |BackOf(text)| <= |After(text)|;
  }

  lemma AppendChanges(text: string, b: string)
    requires START <= b && !HasBlock(text)
    ensures Upsert(Some(text), Some(b)).file != Some(text)
  {
    UpsertLaysOut(text, b);
    TrimEndIs(text);
    var k, next := |TrimEnd(text)|, Layout(TrimEnd(text), b, "");
    assert b[0] == '<';
    assert next == TrimEnd(text) + next[k..];
    assert !AllSpace(next[k..]) by {
      if k == 0 {
        assert next[k..][0] == b[0];
      } else {
        assert next[k..][2] == b[0];
      }
    }
  }

  /** The file is reported unchanged exactly when it is; created and removed mean what they say. */
  lemma ActionIff(existing: Option<string>, block: Option<string>)
    requires block.Some? ==> START <= block.value
    ensures var outcome := Upsert(existing, block);
            && (outcome.action == Unchanged <==> outcome.file == existing)
            && (outcome.action == Created <==> existing.None? && outcome.file.Some?)
            && (outcome.action == Created ==> outcome.file == Some(block.value + "\n"))
            && (outcome.action == Removed <==> existing.Some? && HasBlock(existing.value) && block.None?)
  {
    if existing.Some? {
      if HasBlock(existing.value) && block.None? {
        RemainsShorter(existing.value);
      } else if !HasBlock(existing.value) && block.Some? {
        AppendChanges(existing.value, block.value);
      }
    }
  }

  /** A catalog of white space alone asks for the block to be removed. */
  lemma WantedIff(markdown: Option<string>, tools: seq<string>, server: string)
    ensures WantedBlock(markdown, tools, server) ==
            if markdown.None? || AllSpace(markdown.value) then None else Some(Block(markdown.value, tools, server))
  {
    if markdown.Some? {
      BlankIff(markdown.value);
      TrimTwice(markdown.value);
    }
  }

  lemma TrimTwice(s: string)
    ensures Trim(Trim(s)) == Trim(s)
  {
    TrimStartIs(s);
    TrimEndIs(TrimStart(s));
    assert "" + Trim(s) + "" == Trim(s);
    TrimIs("", Trim(s), "");
  }

  // --- the text of a block ---

  lemma UnderscoredExample()
    ensures Underscored("my-gw") == "my_gw"
  {
  }

  /** The device path of a tool: the server with underscores for dashes, the tool as it is. */
  lemma DeviceSpelledOut()
    ensures Device("read-file", "my-gw") == "xd://mcp__my_gw_read-file"
  {
    UnderscoredExample();
  }

  lemma {:induction false} JoinAppend(a: seq<string>, b: seq<string>)
    requires a != [] && b != []
    ensures Join(a + b, "\n") == Join(a, "\n") + "\n" + Join(b, "\n")
  {
    if |a| == 1 {
      assert (a + b)[1..] == b;
    } else {
      assert (a + b)[1..] == a[1..] + b;
      JoinAppend(a[1..], b);
      Around(a[0], Join(a[1..], "\n"), Join(b, "\n"));
    }
  }

  lemma Around(a: string, b: string, c: string)
    ensures a + "\n" + (b + "\n" + c) == (a + "\n" + b) + "\n" + c
  {
  }

  /** What the tools add: a blank line, the title, the two lines of the snippet, tool by tool. */
  function ToolsText(tools: seq<string>, server: string): string {
    if tools == [] then ""
    else
      var last := tools[|tools| - 1];
      ToolsText(tools[..|tools| - 1], server) + "\n\n" + "#### Invocation: " + "`" + last + "`\n" + Snippet(last, server)
  }

  lemma Lines3(a: string, b: string)
    ensures Join(["", a, b], "\n") == "\n" + a + "\n" + b
  {
    JoinPair(a, b);
    assert ["", a, b][1..] == [a, b];
  }

  lemma HeadJoined(a: string, b: string, c: string)
    ensures Join([a, "", b, "", c], "\n") == a + "\n\n" + b + "\n\n" + c
  {
    Lines3(b, Join(["", c], "\n"));
    JoinPair("", c);
    JoinAppend([a], ["", b, "", c]);
    JoinAppend(["", b], ["", c]);
    JoinPair("", b);
    assert [a] + ["", b, "", c] == [a, "", b, "", c] && ["", b] + ["", c] == ["", b, "", c];
    assert Join([a], "\n") == a;
  }

  lemma {:induction false} ToolsJoined(head: seq<string>, tools: seq<string>, server: string)
    requires head != []
    ensures Join(head + ToolLines(tools, server), "\n") == Join(head, "\n") + ToolsText(tools, server)
    decreases |tools|
  {
    if tools == [] {
      assert head + [] == head;
    } else {
      var front, last := tools[..|tools| - 1], tools[|tools| - 1];
      var title, lines := TITLE + "`" + last + "`", ToolLines(front, server);
      ToolsJoined(head, front, server);
      JoinAppend(head + lines, ["", title, Snippet(last, server)]);
      Lines3(title, Snippet(last, server));
      assert head + (lines + ["", title, Snippet(last, server)]) == (head + lines) + ["", title, Snippet(last, server)];
      ToolPlaced(Join(head, "\n"), ToolsText(front, server), TITLE, last, Snippet(last, server));
    }
  }

  lemma ToolPlaced(head: string, before: string, title: string, tool: string, snippet: string)
    ensures (head + before) + "\n" + ("\n" + (title + "`" + tool + "`") + "\n" + snippet) ==
            head + (before + "\n\n" + title + "`" + tool + "`\n" + snippet)
  {
    assert "`" + "\n" == "`\n" && "\n" + "\n" == "\n\n";
  }

  /** A block from its first character to its last. */
  lemma BlockSpelledOut(markdown: string, tools: seq<string>, server: string)
    ensures Block(markdown, tools, server) ==
            "<!-- tool-evolver:catalog:start -->" + "\n\n" + Trim(markdown) + "\n\n" + NOTE + ToolsText(tools, server) +
            "\n\n" + "<!-- tool-evolver:catalog:end -->"
  {
    var head := [START, "", Trim(markdown), "", NOTE];
    HeadJoined(START, Trim(markdown), NOTE);
    ToolsJoined(head, tools, server);
    JoinAppend(head + ToolLines(tools, server), ["", END]);
    JoinPair("", END);
    EndPlaced(Join(head + ToolLines(tools, server), "\n"), END);
  }

  lemma EndPlaced(front: string, end: string)
    ensures front + "\n" + ("" + ['\n'] + end) == front + "\n\n" + end
  {
  }

  /** The two lines about a tool. */
  lemma SnippetSpelledOut(tool: string, server: string)
    ensures var path := "xd://mcp__" + Underscored(server) + "_" + tool;
            Snippet(tool, server) ==
            "- **Invoke**: write the JSON arguments to `" + path + "`" + " (e.g. `write` `{\"path\": \"" + path + "\"" +
            ", \"content\": \"{}\"}` when the tool takes no inputs)." + "\n" +
            "- **Docs**: `read` `" + path + "`" + " returns the tool's documentation."
  {
    var path := Device(tool, server);
    JoinPair(INVOKE + path + "`" + (EXAMPLE + path + "\"" + NO_INPUT), DOCS + path + "`" + RETURNS);
    Flat(INVOKE + path + "`", EXAMPLE, path, "\"", NO_INPUT, DOCS, path, RETURNS);
  }

  lemma Flat(a: string, b: string, c: string, d: string, e: string, f: string, g: string, h: string)
    ensures (a + (b + c + d + e)) + "\n" + (f + g + "`" + h) == a + b + c + d + e + "\n" + f + g + "`" + h
  {
  }
}
