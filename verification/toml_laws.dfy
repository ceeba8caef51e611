/** Laws of the TOML section editor. */
module TomlLaws {
  import opened Wrappers
  import opened TranscriptLines
  import opened TextSearch
  import opened TomlSection

  // --- the section of a file ---

  /** The parts of a file around and inside the section. */
  datatype Section = Section(before: string, header: string, body: string, behind: string)

  function SectionIn(content: string, name: string): Option<Section> {
    match FindHeader(content, name)
    case None => None
    case Some(header) => Some(SectionAt(content, header.0, header.0 + header.1))
  }

  function SectionAt(content: string, start: nat, headerEnd: nat): Section
    requires start <= headerEnd <= |content|
  {
    var rest := content[headerEnd..];
    var n := SectionLen(rest);
    Section(content[..start], content[start..headerEnd], rest[..n], rest[n..])
  }

  /** The url the section gives. */
  function UrlIn(section: Section): Option<string> {
    FindUrl(section.header + section.body)
  }

  lemma Parts(a: string, h: string, b: string, c: string)
    ensures var s := a + h + b + c;
            && s[..|a|] == a && s[|a|..|a| + |h|] == h && s[|a| + |h|..] == b + c
            && s[|a| + |h|..|a| + |h| + |b|] == b && s[|a| + |h| + |b|..] == c
            && s[..|a| + |h|] == a + h
  {
  }

  /** No section begins within b when c follows it. */
  ghost predicate Unbroken(b: string, c: string) {
    forall j :: 0 <= j < |b| ==> !Breaks(b + c, j)
  }

  lemma SectionLenIs(b: string, c: string)
    requires Unbroken(b, c) && (c == "" || BreaksAt(c))
    ensures SectionLen(b + c) == |b|
  {
    BreakBehind(b, c);
    SectionLenIsFirst(b + c, |b|);
  }

  lemma BreakBehind(b: string, c: string)
    ensures Breaks(b + c, |b|) <==> BreaksAt(c)
  {
    assert (b + c)[|b|..] == c;
  }

  /** The parts of a file put together from a front, a header, a body without breaks and what follows. */
  lemma SectionOf(a: string, h: string, b: string, c: string, name: string)
    requires FindHeader(a + h + b + c, name) == Some((|a|, |h|))
    requires SectionLen(b + c) == |b|
    ensures SectionIn(a + h + b + c, name) == Some(Section(a, h, b, c))
  {
    SectionOfParts(a, h, b, c);
  }

  lemma SectionOfParts(a: string, h: string, b: string, c: string)
    requires SectionLen(b + c) == |b|
    ensures SectionAt(a + h + b + c, |a|, |a| + |h|) == Section(a, h, b, c)
  {
    Parts(a, h, b, c);
    assert (b + c)[..|b|] == b && (b + c)[|b|..] == c;
  }

  // --- a url line just behind a header ---

  lemma NoBreakInUrlLine(url: string, c: string)
    requires CleanUrl(url)
    ensures Unbroken(UrlLine(url), c)
  {
    var s := UrlLine(url) + c;
    forall j | 0 <= j < |UrlLine(url)| ensures !Breaks(s, j) {
      assert s[j..][0] == UrlLine(url)[j];
      if j == 0 {
        assert s[1..][0] == 'u';
        assert s[0..][1..] == s[1..];
      } else {
        UrlLineChars(url, j);
      }
    }
  }

  lemma UrlLineChars(url: string, j: nat)
    requires CleanUrl(url) && 0 < j < |UrlLine(url)|
    ensures UrlLine(url)[j] != '\n'
  {
    var middle := "url = \"" + url;
    assert UrlLine(url)[1..] == middle + "\"";
    assert '\n' !in middle;
    assert UrlLine(url)[j] == (middle + "\"")[j - 1];
  }

  /** A url line read at its own start. */
  lemma UrlLineRead(url: string, tail: string)
    ensures UrlTail((UrlLine(url) + tail)[1..]) == Some(url + "\"" + tail)
  {
    var t := (UrlLine(url) + tail)[1..];
    assert t == "" + ("url" + " " + ("=" + " " + ("\"" + (url + "\"" + tail))));
    assert UrlParts(t, url + "\"" + tail, "", " ", " ");
    UrlComplete(t, url + "\"" + tail);
  }

  lemma QuoteAfter(url: string, tail: string)
    requires '"' !in url
    ensures QuoteIndex(url + "\"" + tail) == |url|
    ensures (url + "\"" + tail)[..|url|] == url
  {
    var t := url + "\"" + tail;
    assert t[|url|] == '"';
    forall k | 0 <= k < |url| ensures t[k] != '"' {
      assert t[k] == url[k];
    }
  }

  /** No url line begins inside a header. */
  lemma NoUrlInHeader(h: string, name: string, rest: string, j: nat)
    requires IsHeader(h, name) && CleanText(name) && j <= |h|
    ensures UrlAt(h + rest, j).None?
  {
    HeaderShape(h, name);
    var s := h + rest;
    if j == |h| {
      assert s[j - 1] == h[|h| - 1] == ']';
    } else if UrlTail(s[j..]).Some? {
      UrlSound(s[j..]);
      NoQuoteReached(h, rest, j, UrlTail(s[j..]).value);
    }
  }

  lemma NoQuoteReached(h: string, rest: string, j: nat, tail: string)
    requires j < |h| && h[|h| - 1] == ']' && '"' !in h
    ensures !IsUrlThen((h + rest)[j..], tail)
  {
    var t := (h + rest)[j..];
    forall w, v, x ensures !UrlParts(t, tail, w, v, x) {
      if UrlParts(t, tail, w, v, x) {
        var front := w + "url" + v + "=" + x;
        assert t == front + "\"" + tail;
        assert t[|front|] == '"';
        assert ']' !in w && ']' !in v && ']' !in x;
        assert ']' !in front;
        BracketBeforeQuote(h, rest, j, front, tail);
      }
    }
  }

  lemma BracketBeforeQuote(h: string, rest: string, j: nat, front: string, tail: string)
    requires j < |h| && h[|h| - 1] == ']' && '"' !in h && ']' !in front
    ensures (h + rest)[j..] != front + "\"" + tail
  {
    var t, u := (h + rest)[j..], front + "\"" + tail;
    var k := |h| - 1 - j;
    assert t[k] == h[|h| - 1];
    if |front| <= k {
      assert u[|front|] == '"' && t[|front|] == h[j + |front|];
    } else {
      assert u[k] == front[k];
    }
  }

  /** What a section made of a header and a url line gives. */
  lemma UrlOfSection(h: string, name: string, url: string, tail: string)
    requires IsHeader(h, name) && CleanText(name) && CleanUrl(url)
    requires tail == "" || tail == "\n"
    ensures FindUrl(h + (UrlLine(url) + tail)) == if url == "" then None else Some(url)
  {
    var rest := UrlLine(url) + tail;
    var s := h + rest;
    forall j: nat | j <= |h| ensures UrlAt(s, j).None? { NoUrlInHeader(h, name, rest, j); }
    assert s[|h| + 1..] == rest[1..];
    assert s[|h|] == '\n';
    UrlLineRead(url, tail);
    QuoteAfter(url, tail);
    if url != "" {
      UrlFoundAt(s, |h| + 1);
    } else {
      forall j: nat | j <= |s| ensures UrlAt(s, j).None? {
        if j <= |h| + |UrlLine("")| {
          NoEmptyUrl(h, tail, j, s);
        } else {
          assert s[j..] == "";
        }
      }
      NoUrlFound(s);
    }
  }

  /** An empty url is never captured. */
  lemma NoEmptyUrl(h: string, tail: string, j: nat, s: string)
    requires s == h + (UrlLine("") + tail) && j <= |h| + |UrlLine("")|
    requires j <= |h| ==> UrlAt(s, j).None?
    ensures UrlAt(s, j).None?
  {
    var rest := UrlLine("") + tail;
    if j == |h| + 1 {
      assert s[j..] == rest[1..];
      UrlLineRead("", tail);
      QuoteAfter("", tail);
    } else if j > |h| + 1 {
      assert s[j - 1] == rest[j - 1 - |h|] == UrlLine("")[j - 1 - |h|];
      assert UrlLine("") == "\nurl = \"\"";
    }
  }

  // --- what an update gives ---

  lemma SectionIs(content: string, name: string, section: Section) returns (i: nat, n: nat)
    requires SectionIn(content, name) == Some(section)
    ensures FindHeader(content, name) == Some((i, n)) && i == |section.before| && n == |section.header|
    ensures IsHeader(section.header, name) && (section.behind == "" || BreaksAt(section.behind))
    ensures content == section.before + section.header + section.body + section.behind
    ensures SectionLen(content[i + n..]) == |section.body|
  {
    i, n := FindHeader(content, name).value.0, FindHeader(content, name).value.1;
    HeaderFromIs(content, name, 0);
    HeaderAtIff(content, name, i, n);
    SectionRest(content[i + n..]);
    CutAt(content, i, i + n);
    Regroup(section.before, section.header, section.body, section.behind);
  }

  lemma SectionRest(rest: string)
    ensures var n := SectionLen(rest);
            rest == rest[..n] + rest[n..] && (rest[n..] == "" || BreaksAt(rest[n..]))
  {
    SectionLenBreaks(rest);
    CutOnce(rest, SectionLen(rest));
  }

  lemma CutOnce(s: string, i: nat)
    requires i <= |s|
    ensures s == s[..i] + s[i..] && (i == |s| ==> s[i..] == "")
  {
  }

  lemma CutAt(s: string, i: nat, j: nat)
    requires i <= j <= |s|
    ensures s == s[..i] + s[i..j] + s[j..]
  {
  }

  lemma Regroup(a: string, h: string, b: string, c: string)
    ensures a + h + (b + c) == a + h + b + c
    ensures a + (h + b) + c == a + h + b + c
  {
  }

  /** A file without the section, up to where an update appends it. */
  function Front(content: string): string {
    Stem(content) + Gap(content)
  }

  function Stem(content: string): string {
    if Trim(content) == "" then COMMENT else content
  }

  function Gap(content: string): string {
    if Trim(content) != "" && !EndsInNewline(content) then "\n\n" else "\n"
  }

  lemma PlainHeaderIs(name: string)
    ensures IsHeader(PlainHeader(name), name)
  {
    assert HeaderParts(PlainHeader(name), name, "", "mcp_servers", "");
  }

  /** No header can begin in front of an appended one. */
  lemma AppendedHasNone(stem: string, gap: string, rest: string, name: string, j: nat)
    requires CleanText(name) && (gap == "\n" || gap == "\n\n") && rest != "" && rest[0] == '[' && j < |stem| + |gap|
    requires j <= |stem| ==> HeaderAt(stem, name, j).None?
    ensures HeaderAt(stem + gap + rest, name, j).None?
  {
    var s := stem + gap + rest;
    if HeaderAt(s, name, j).Some? {
      var n := HeaderAt(s, name, j).value;
      HeaderAtIff(s, name, j, n);
      HeaderShape(s[j..j + n], name);
      BracketsWithin(stem, gap, rest, j, n);
      SamePrefix(stem, s, |stem|, j, j + n);
      HeaderAtIff(stem, name, j, n);
    }
  }

  /** A bracketed text that begins in front of a later opening bracket ends in front of the newlines before that. */
  lemma BracketsWithin(stem: string, gap: string, rest: string, j: nat, n: nat)
    requires (gap == "\n" || gap == "\n\n") && rest != "" && rest[0] == '['
    requires j < |stem| + |gap| && n >= 2 && j + n <= |stem + gap + rest|
    requires var h := (stem + gap + rest)[j..j + n];
             h[n - 1] == ']' && forall i :: 0 < i < n ==> h[i] != '['
    ensures j + n <= |stem|
  {
    var s, p := stem + gap + rest, |stem| + |gap|;
    forall k | j < k < j + n ensures s[k] != '[' {
      assert s[j..j + n][k - j] == s[k];
    }
    assert s[p] == '[';
    assert s[j + n - 1] == s[j..j + n][n - 1];
    assert forall k :: |stem| <= k < p ==> s[k] == '\n';
  }

  lemma StemHasNone(content: string, name: string, j: nat)
    requires SectionIn(content, name).None? && j <= |Stem(content)|
    ensures HeaderAt(Stem(content), name, j).None?
  {
    if Trim(content) == "" {
      assert '[' !in COMMENT;
      assert j < |COMMENT| ==> COMMENT[j..][0] == COMMENT[j];
    } else {
      NoHeaderBefore(content, name, 0, j);
    }
  }

  /** The header an update appends is the one found afterwards. */
  lemma AppendedFound(content: string, name: string, rest: string)
    requires SectionIn(content, name).None? && CleanText(name)
    ensures FindHeader(Front(content) + PlainHeader(name) + rest, name) == Some((|Front(content)|, |PlainHeader(name)|))
  {
    var h := PlainHeader(name);
    var s := Front(content) + h + rest;
    var p := |Front(content)|;
    assert s == Stem(content) + Gap(content) + (h + rest);
    forall j | 0 <= j < p ensures HeaderAt(s, name, j).None? {
      if j <= |Stem(content)| { StemHasNone(content, name, j); }
      AppendedHasNone(Stem(content), Gap(content), h + rest, name, j);
    }
    PlainHeaderIs(name);
    assert s[p..p + |h|] == h;
    assert s[p - 1] == '\n';
    HeaderAtIff(s, name, p, |h|);
    HeaderFoundAt(s, name, p, |h|);
  }

  // --- the three ways an update goes ---

  lemma UpdateAppends(content: string, name: string, url: string)
    requires SectionIn(content, name).None?
    ensures Update(content, name, url) == Front(content) + PlainHeader(name) + (UrlLine(url) + "\n")
  {
    var h, u := PlainHeader(name), UrlLine(url);
    assert COMMENT + "\n" + h + u + "\n" == COMMENT + "\n" + h + (u + "\n");
    assert content + "" + "\n" + h + u + "\n" == content + "\n" + h + (u + "\n");
    assert content + "\n" + "\n" + h + u + "\n" == content + "\n\n" + h + (u + "\n");
  }

  lemma UpdateReplaces(content: string, name: string, url: string, section: Section)
    requires SectionIn(content, name) == Some(section)
    ensures Update(content, name, url) ==
            if UrlIn(section) == Some(url) then content
            else section.before + section.header + UrlLine(url) + section.behind
  {
    var header := FindHeader(content, name).value;
    UpdatesAt(content, name, url, header.0, header.1);
    UpdatesSection(content, header.0, header.0 + header.1, url, section);
  }

  lemma UpdatesAt(content: string, name: string, url: string, i: nat, n: nat)
    requires FindHeader(content, name) == Some((i, n))
    ensures i + n <= |content| && Update(content, name, url) == UpdateSection(content, i, i + n, url)
  {
    NotBlank(content, name, i, n);
  }

  lemma UpdatesSection(content: string, i: nat, j: nat, url: string, section: Section)
    requires i <= j <= |content| && section == SectionAt(content, i, j)
    ensures UpdateSection(content, i, j, url) ==
            if UrlIn(section) == Some(url) then content
            else section.before + section.header + UrlLine(url) + section.behind
  {
    var k := j + SectionLen(content[j..]);
    SectionSlices(content, i, j, k);
    Regroup(section.before, section.header, UrlLine(url), section.behind);
  }

  lemma SectionSlices(s: string, i: nat, j: nat, k: nat)
    requires i <= j <= k <= |s|
    ensures s[i..k] == s[i..j] + s[j..][..k - j] && s[k..] == s[j..][k - j..]
  {
  }

  lemma NotBlank(content: string, name: string, i: nat, n: nat)
    requires FindHeader(content, name) == Some((i, n))
    ensures Trim(content) != ""
  {
    HeaderFromIs(content, name, 0);
    HeaderAtBracket(content, name, i);
    BracketNotBlank(content, i);
  }

  lemma HeaderAtBracket(content: string, name: string, i: nat)
    requires HeaderAt(content, name, i).Some?
    ensures i < |content| && content[i] == '['
  {
    assert content[i..] != "" && content[i..][0] == content[i];
  }

  lemma BracketNotBlank(s: string, i: nat)
    requires i < |s| && s[i] == '['
    ensures Trim(s) != ""
  {
    BlankIff(s);
  }

  /** A new section, character by character. */
  lemma AppendSpelledOut(content: string, name: string, url: string)
    requires Blank(content) || FindHeader(content, name).None?
    ensures Update(content, name, url) ==
            (if Blank(content) then "# Codex CLI Configuration\n" else if content[|content| - 1] == '\n' then content else content + "\n") +
            ("\n[mcp_servers." + name + "]\nurl = \"" + url + "\"\n")
  {
    if !Blank(content) {
      assert content[|content| - 1] == '\n' ==> content + "" == content;
    }
    var top := if Blank(content) then COMMENT else if content[|content| - 1] == '\n' then content else content + "\n";
    SectionText(top, name, url);
  }

  lemma SectionText(top: string, name: string, url: string)
    ensures top + "\n" + PlainHeader(name) + UrlLine(url) + "\n" ==
            top + ("\n[mcp_servers." + name + "]\nurl = \"" + url + "\"\n")
  {
    assert "\n" + "[mcp_servers." == "\n[mcp_servers.";
    assert "]" + "\nurl = \"" == "]\nurl = \"";
    assert "\"" + "\n" == "\"\n";
  }

  /** The parts after an update that appended a section. */
  lemma AppendedParts(content: string, name: string, url: string)
    requires SectionIn(content, name).None? && CleanText(name) && CleanUrl(url)
    ensures SectionIn(Update(content, name, url), name) ==
            Some(Section(Front(content), PlainHeader(name), UrlLine(url) + "\n", ""))
  {
    var body := UrlLine(url) + "\n";
    UpdateAppends(content, name, url);
    AppendedFound(content, name, body);
    NewlineUnbroken(url);
    SectionLenIs(body, "");
    assert Front(content) + PlainHeader(name) + body + "" == Front(content) + PlainHeader(name) + body;
    SectionOf(Front(content), PlainHeader(name), body, "", name);
  }

  lemma NewlineUnbroken(url: string)
    requires CleanUrl(url)
    ensures Unbroken(UrlLine(url) + "\n", "")
  {
    NoBreakInUrlLine(url, "\n");
    var b := UrlLine(url) + "\n";
    assert b + "" == b;
    assert b[|UrlLine(url)|..] == "\n" && "\n"[1..] == "";
  }

  /** The parts after an update that replaced a section. */
  lemma ReplacedParts(content: string, name: string, url: string, section: Section)
    requires SectionIn(content, name) == Some(section) && CleanText(name) && CleanUrl(url) && UrlIn(section) != Some(url)
    ensures SectionIn(Update(content, name, url), name) == Some(section.(body := UrlLine(url)))
  {
    UpdateReplaces(content, name, url, section);
    var i, n := SectionIs(content, name, section);
    BodyReplaced(content, section.before, section.header, section.body, section.behind, name, url);
  }

  lemma BodyReplaced(content: string, a: string, h: string, b: string, c: string, name: string, url: string)
    requires content == a + h + b + c && FindHeader(content, name) == Some((|a|, |h|)) && (c == "" || BreaksAt(c))
    requires CleanText(name) && CleanUrl(url)
    ensures SectionIn(a + h + UrlLine(url) + c, name) == Some(Section(a, h, UrlLine(url), c))
  {
    assert FindHeader(a + h + UrlLine(url) + c, name) == Some((|a|, |h|)) by {
      Regroup(a, h, UrlLine(url), c);
      Regroup(a, h, b, c);
      ReplacedFound(content, a, h, b + c, UrlLine(url) + c, name);
    }
    NoBreakInUrlLine(url, c);
    SectionLenIs(UrlLine(url), c);
    SectionOf(a, h, UrlLine(url), c, name);
  }

  lemma ReplacedFound(content: string, a: string, h: string, rest: string, rest': string, name: string)
    requires CleanText(name) && content == a + h + rest && FindHeader(content, name) == Some((|a|, |h|))
    ensures FindHeader(a + h + rest', name) == Some((|a|, |h|))
  {
    var p := |a| + |h|;
    assert (a + h + rest')[..p] == a + h == content[..p];
    SameHeader(content, a + h + rest', name, |a|, |h|);
  }

  // --- the laws ---

  /** After an update the section gives the url, unless the url is empty. */
  lemma UpdateThenRead(content: string, name: string, url: string)
    requires CleanText(name) && CleanUrl(url)
    ensures SectionIn(Update(content, name, url), name).Some?
    ensures UrlIn(SectionIn(Update(content, name, url), name).value) == if url == "" then None else Some(url)
  {
    match SectionIn(content, name)
    case None =>
      AppendedParts(content, name, url);
      PlainHeaderIs(name);
      UrlOfSection(PlainHeader(name), name, url, "\n");
    case Some(section) =>
      UpdateReplaces(content, name, url, section);
      if UrlIn(section) == Some(url) {
        NeverEmpty(section);
      } else {
        ReplacedParts(content, name, url, section);
        var i, n := SectionIs(content, name, section);
        assert UrlLine(url) + "" == UrlLine(url);
        UrlOfSection(section.header, name, url, "");
      }
  }

  lemma NeverEmpty(section: Section)
    ensures UrlIn(section) != Some("")
  {
    if UrlIn(section).Some? {
      var i := UrlFoundSomewhere(section.header + section.body, 0);
    }
  }

  /** Nothing outside the section changes: a new section goes behind the whole file, an old one is replaced where it stands. */
  lemma UpdateKeepsOutside(content: string, name: string, url: string)
    requires CleanText(name) && CleanUrl(url)
    ensures var updated := SectionIn(Update(content, name, url), name);
            && updated.Some?
            && match SectionIn(content, name) {
                 case None => Trim(content) != "" ==> content <= updated.value.before && updated.value.behind == ""
                 case Some(section) =>
                   && updated.value.before == section.before && updated.value.header == section.header
                   && updated.value.behind == section.behind
               }
  {
    match SectionIn(content, name)
    case None => AppendedParts(content, name, url);
    case Some(section) =>
      UpdateReplaces(content, name, url, section);
      if UrlIn(section) != Some(url) {
        ReplacedParts(content, name, url, section);
      }
  }

  /** Updating twice is updating once, if and only if the url is not empty or the section was there before. */
  lemma UpdateTwiceIff(content: string, name: string, url: string)
    requires CleanText(name) && CleanUrl(url)
    ensures Update(Update(content, name, url), name, url) == Update(content, name, url) <==>
            url != "" || SectionIn(content, name).Some?
  {
    var once := Update(content, name, url);
    UpdateThenRead(content, name, url);
    UpdateReplaces(once, name, url, SectionIn(once, name).value);
    match SectionIn(content, name)
    case None =>
      AppendedParts(content, name, url);
      var i, n := SectionIs(once, name, SectionIn(once, name).value);
    case Some(section) =>
      UpdateReplaces(content, name, url, section);
      if UrlIn(section) != Some(url) {
        ReplacedParts(content, name, url, section);
        var i, n := SectionIs(once, name, SectionIn(once, name).value);
      }
  }

  // --- a section that loses its other keys ---

  /** A file that is one plain section. */
  lemma OneSection(name: string, body: string)
    requires CleanText(name) && '[' !in body
    ensures SectionIn(PlainHeader(name) + body, name) == Some(Section("", PlainHeader(name), body, ""))
  {
    var h, s := PlainHeader(name), PlainHeader(name) + body;
    PlainHeaderIs(name);
    assert s[0..0 + |h|] == h;
    HeaderAtIff(s, name, 0, |h|);
    HeaderFoundAt(s, name, 0, |h|);
    NoBracketUnbroken(body);
    SectionLenIs(body, "");
    assert "" + h + body + "" == s;
    SectionOf("", h, body, "", name);
  }

  lemma NoBracketUnbroken(body: string)
    requires '[' !in body
    ensures Unbroken(body, "")
  {
    var s := body + "";
    assert s == body;
    forall j | 0 <= j < |body| ensures !Breaks(s, j) {
      var rest := s[j..][1..];
      TrimStartIs(rest);
      assert rest[|rest| - |TrimStart(rest)|..] == TrimStart(rest);
      assert forall k :: 0 <= k < |rest| ==> rest[k] == body[j + 1 + k];
    }
  }

  /** The url found is made of characters of the text. */
  lemma UrlFromText(s: string, url: string)
    requires FindUrl(s) == Some(url)
    ensures forall c :: c in url ==> c in s
  {
    var i := UrlFoundSomewhere(s, 0);
    var t := s[i..];
    UrlSound(t);
    var w, v, x :| UrlParts(t, UrlTail(t).value, w, v, x);
    TailIn(t, w + ("url" + v + ("=" + x + "\"")), UrlTail(t).value);
    assert forall c :: c in t ==> c in s;
  }

  lemma TailIn(t: string, front: string, tail: string)
    requires t == front + tail
    ensures forall c :: c in tail ==> c in t
  {
    forall c | c in tail ensures c in t {
      var k :| 0 <= k < |tail| && tail[k] == c;
      assert t[|front| + k] == c;
    }
  }

  /** A file of one section, updated to a url that cannot be there yet. */
  lemma OnlyUrlLeft(name: string, body: string, url: string, mark: char)
    requires CleanText(name) && '[' !in body
    requires mark in url && mark !in PlainHeader(name) && mark !in body
    ensures Update(PlainHeader(name) + body, name, url) == PlainHeader(name) + UrlLine(url)
  {
    OneSection(name, body);
    UrlAbsent(PlainHeader(name) + body, url, mark);
    UpdateReplaces(PlainHeader(name) + body, name, url, Section("", PlainHeader(name), body, ""));
    NothingAround(PlainHeader(name), UrlLine(url));
  }

  lemma UrlAbsent(s: string, url: string, mark: char)
    requires mark in url && mark !in s
    ensures FindUrl(s) != Some(url)
  {
    if FindUrl(s) == Some(url) {
      UrlFromText(s, url);
    }
  }

  lemma NothingAround(h: string, u: string)
    ensures "" + h + u + "" == h + u
  {
  }

  /** A section with a url and another key, updated: the key is gone. */
  lemma LosesKeyExample()
    ensures var header := PlainHeader("gateway");
            Update(header + "\nurl = \"a\"\nkey = \"k\"\n", "gateway", "x") == header + UrlLine("x")
  {
    assert 'x' in "x" by { assert "x"[0] == 'x'; }
    OnlyUrlLeft("gateway", "\nurl = \"a\"\nkey = \"k\"\n", "x", 'x');
  }
}
