/** The gateway's section in a Codex TOML configuration: the editor and its verifier, as their regular expressions read. */
module TomlSection {
  import opened Wrappers
  import opened TranscriptLines
  import opened TextSearch

  // --- what the expressions match ---

  /** Where `^` matches with the `m` flag. */
  predicate LineStart(s: string, i: nat)
    requires i <= |s|
  {
    i == 0 || s[i - 1] == '\n' || s[i - 1] == '\r' || s[i - 1] as int == 0x2028 || s[i - 1] as int == 0x2029
  }

  predicate IsKey(key: string) {
    key == "mcp_servers" || key == "mcpServers" || key == "mcp.servers"
  }

  function KeyOf(t: string): Option<string> {
    if "mcp_servers" <= t then Some("mcp_servers")
    else if "mcpServers" <= t then Some("mcpServers")
    else if "mcp.servers" <= t then Some("mcp.servers")
    else None
  }

  /** The length of the section header at the front of t, without its `^`. */
  function HeaderLen(t: string, name: string): (r: Option<nat>)
    ensures r.Some? ==> r.value <= |t|
  {
    if t == "" || t[0] != '[' then None
    else
      var inside := TrimStart(t[1..]);
      match KeyOf(inside)
      case None => None
      case Some(key) =>
        if !(key + "." + name <= inside) then None
        else
          var tail := TrimStart(inside[|key + "." + name|..]);
          if tail == "" || tail[0] != ']' then None else Some(|t| - |tail| + 1)
  }

  function HeaderAt(s: string, name: string, i: nat): (r: Option<nat>)
    ensures r.Some? ==> i + r.value <= |s|
  {
    if i <= |s| && LineStart(s, i) then HeaderLen(s[i..], name) else None
  }

  /** The first header at or after i: where it starts and how long it is. */
  function HeaderFrom(s: string, name: string, i: nat): (r: Option<(nat, nat)>)
    ensures r.Some? ==> r.value.0 + r.value.1 <= |s|
    decreases |s| + 1 - i
  {
    if i > |s| then None
    else if HeaderAt(s, name, i).Some? then Some((i, HeaderAt(s, name, i).value))
    else HeaderFrom(s, name, i + 1)
  }

  function FindHeader(s: string, name: string): Option<(nat, nat)> {
    HeaderFrom(s, name, 0)
  }

  /** A header at i with none before it is the one found. */
  lemma HeaderFoundAt(s: string, name: string, i: nat, n: nat)
    requires HeaderAt(s, name, i) == Some(n)
    requires forall j :: 0 <= j < i ==> HeaderAt(s, name, j).None?
    ensures FindHeader(s, name) == Some((i, n))
  {
    SkipHeaders(s, name, 0, i);
  }

  lemma {:induction false} SkipHeaders(s: string, name: string, from: nat, i: nat)
    requires from <= i <= |s| && forall j :: from <= j < i ==> HeaderAt(s, name, j).None?
    ensures HeaderFrom(s, name, from) == HeaderFrom(s, name, i)
    decreases i - from
  {
    if from < i {
      SkipHeaders(s, name, from + 1, i);
    }
  }

  lemma {:induction false} NoHeaderBefore(s: string, name: string, from: nat, j: nat)
    requires from <= j <= |s| && (HeaderFrom(s, name, from).Some? ==> j < HeaderFrom(s, name, from).value.0)
    ensures HeaderAt(s, name, j).None?
    decreases |s| - from
  {
    if from < j {
      NoHeaderBefore(s, name, from + 1, j);
    }
  }

  lemma {:induction false} HeaderFromIs(s: string, name: string, from: nat)
    requires HeaderFrom(s, name, from).Some?
    ensures var (i, n) := HeaderFrom(s, name, from).value;
            from <= i && HeaderAt(s, name, i) == Some(n)
    decreases |s| + 1 - from
  {
    if HeaderAt(s, name, from).None? {
      HeaderFromIs(s, name, from + 1);
    }
  }

  /** A newline followed, after white space, by an opening bracket. */
  predicate BreaksAt(t: string) {
    t != "" && t[0] == '\n' && var rest := TrimStart(t[1..]); rest != "" && rest[0] == '['
  }

  predicate Breaks(s: string, j: nat) {
    j <= |s| && BreaksAt(s[j..])
  }

  /** How far a section reaches into the text behind its header. */
  function SectionLen(rest: string): (n: nat)
    ensures n <= |rest|
  {
    if rest == "" || BreaksAt(rest) then 0 else 1 + SectionLen(rest[1..])
  }

  /** The section ends at the first break, or at the end of the file. */
  lemma {:induction false} SectionLenIsFirst(rest: string, n: nat)
    requires n <= |rest| && (n < |rest| ==> Breaks(rest, n)) && forall j :: 0 <= j < n ==> !Breaks(rest, j)
    ensures SectionLen(rest) == n
  {
    assert rest[0..] == rest;
    if n > 0 {
      assert !Breaks(rest, 0);
      ShiftBreaks(rest);
      assert n < |rest| ==> Breaks(rest, n);
      forall j | 0 <= j < n - 1 ensures !Breaks(rest[1..], j) {
        assert !Breaks(rest, j + 1);
      }
      SectionLenIsFirst(rest[1..], n - 1);
    } else if rest != "" {
      assert Breaks(rest, 0);
    }
  }

  lemma {:induction false} SectionLenBreaks(rest: string)
    ensures SectionLen(rest) < |rest| ==> BreaksAt(rest[SectionLen(rest)..])
  {
    assert rest[0..] == rest;
    if rest != "" && !BreaksAt(rest) {
      SectionLenBreaks(rest[1..]);
      assert rest[1..][SectionLen(rest[1..])..] == rest[SectionLen(rest)..];
    }
  }

  lemma ShiftBreaks(s: string)
    requires s != ""
    ensures forall j: nat {:trigger Breaks(s, j)} :: j > 0 ==> (Breaks(s, j) <==> Breaks(s[1..], j - 1))
  {
    forall j: nat | j > 0 ensures Breaks(s, j) <==> Breaks(s[1..], j - 1) {
      if j <= |s| {
        assert s[1..][j - 1..] == s[j..];
      }
    }
  }

  function QuoteIndex(t: string): (q: nat)
    ensures q <= |t| && (forall k :: 0 <= k < q ==> t[k] != '"') && (q < |t| ==> t[q] == '"')
  {
    if t == "" || t[0] == '"' then 0 else 1 + QuoteIndex(t[1..])
  }

  /** What follows `url = ` at the front of t, from the opening quote on. */
  function UrlTail(t: string): Option<string> {
    var key := TrimStart(t);
    if !("url" <= key) then None
    else
      var sign := TrimStart(key[3..]);
      if sign == "" || sign[0] != '=' then None
      else
        var quote := TrimStart(sign[1..]);
        if quote == "" || quote[0] != '"' then None else Some(quote[1..])
  }

  /** The url the expression captures at the front of t. */
  function UrlOf(t: string): Option<string> {
    match UrlTail(t)
    case None => None
    case Some(tail) =>
      var q := QuoteIndex(tail);
      if q == 0 || q == |tail| then None else Some(tail[..q])
  }

  function UrlAt(s: string, i: nat): Option<string> {
    if i <= |s| && LineStart(s, i) then UrlOf(s[i..]) else None
  }

  /** The url of the first url line at or after i. */
  function UrlFrom(s: string, i: nat): Option<string>
    decreases |s| + 1 - i
  {
    if i > |s| then None
    else if UrlAt(s, i).Some? then UrlAt(s, i)
    else UrlFrom(s, i + 1)
  }

  function FindUrl(s: string): Option<string> {
    UrlFrom(s, 0)
  }

  lemma UrlFoundAt(s: string, i: nat)
    requires i <= |s| && UrlAt(s, i).Some? && forall j :: 0 <= j < i ==> UrlAt(s, j).None?
    ensures FindUrl(s) == UrlAt(s, i)
  {
    SkipUrls(s, 0, i);
  }

  lemma {:induction false} SkipUrls(s: string, from: nat, i: nat)
    requires from <= i <= |s| + 1 && forall j :: from <= j < i ==> UrlAt(s, j).None?
    ensures UrlFrom(s, from) == UrlFrom(s, i)
    decreases i - from
  {
    if from < i {
      SkipUrls(s, from + 1, i);
    }
  }

  lemma {:induction false} UrlFoundSomewhere(s: string, from: nat) returns (i: nat)
    requires UrlFrom(s, from).Some?
    ensures i <= |s| && UrlAt(s, i) == UrlFrom(s, from)
    decreases |s| + 1 - from
  {
    i := from;
    if UrlAt(s, from).None? {
      i := UrlFoundSomewhere(s, from + 1);
    }
  }

  lemma NoUrlFound(s: string)
    requires forall j :: 0 <= j <= |s| ==> UrlAt(s, j).None?
    ensures FindUrl(s) == None
  {
    SkipUrls(s, 0, |s| + 1);
  }

  // --- the editor ---

  const COMMENT := "# Codex CLI Configuration\n"

  function PlainHeader(name: string): string {
    "[mcp_servers." + name + "]"
  }

  function UrlLine(url: string): string {
    "\nurl = \"" + url + "\""
  }

  function Update(content: string, name: string, url: string): string {
    if Trim(content) == "" then COMMENT + "\n" + PlainHeader(name) + UrlLine(url) + "\n"
    else
      match FindHeader(content, name)
      case None =>
        content + (if EndsInNewline(content) then "" else "\n") + "\n" + PlainHeader(name) + UrlLine(url) + "\n"
      case Some(header) => UpdateSection(content, header.0, header.0 + header.1, url)
  }

  predicate EndsInNewline(content: string) {
    content != "" && content[|content| - 1] == '\n'
  }

  /** The section runs from its header up to the next line that opens a section. */
  function UpdateSection(content: string, start: nat, headerEnd: nat, url: string): string
    requires start <= headerEnd <= |content|
  {
    var sectionEnd := headerEnd + SectionLen(content[headerEnd..]);
    if FindUrl(content[start..sectionEnd]) == Some(url) then content
    else content[..start] + (content[start..headerEnd] + UrlLine(url)) + content[sectionEnd..]
  }

  /** Whether some line start is followed by `url = "..."` with this very text between the quotes. */
  predicate UrlIsAt(s: string, i: nat, url: string) {
    i <= |s| && LineStart(s, i) && UrlTail(s[i..]).Some? && url + "\"" <= UrlTail(s[i..]).value
  }

  predicate HasUrl(s: string, i: nat, url: string)
    ensures HasUrl(s, i, url) <==> exists j :: i <= j <= |s| && UrlIsAt(s, j, url)
    decreases |s| + 1 - i
  {
    if i > |s| then false else UrlIsAt(s, i, url) || HasUrl(s, i + 1, url)
  }

  /** `gatewayUrl` is not checked when it is absent or empty. */
  predicate Verify(content: string, gatewayUrl: Option<string>, name: string) {
    && content != ""
    && FindHeader(content, name).Some?
    && if gatewayUrl.Some? && gatewayUrl.value != "" then HasUrl(content, 0, gatewayUrl.value) else FindUrl(content).Some?
  }

  // --- the expressions as languages ---

  ghost predicate HeaderParts(h: string, name: string, w: string, key: string, v: string) {
    AllSpace(w) && AllSpace(v) && IsKey(key) && h == "[" + w + (key + "." + name) + v + "]"
  }

  /** The texts the header expression matches. */
  ghost predicate IsHeader(h: string, name: string) {
    exists w, key, v :: HeaderParts(h, name, w, key, v)
  }

  lemma SplitStart(t: string) returns (w: string)
    ensures AllSpace(w) && t == w + TrimStart(t)
  {
    TrimStartIs(t);
    w := t[..|t| - |TrimStart(t)|];
  }

  /** White space, then something else: trimming stops there. */
  lemma TrimStops(w: string, s: string)
    requires AllSpace(w) && s != "" && !IsSpace(s[0])
    ensures TrimStart(w + s) == s
  {
    TrimStartSpace(w, s);
  }

  lemma KeyOfIs(key: string, s: string)
    requires IsKey(key)
    ensures KeyOf(key + s) == Some(key)
  {
    var t := key + s;
    assert key <= t;
    assert "mcp_servers"[3] == '_' && "mcpServers"[3] == 'S' && "mcp.servers"[3] == '.';
    assert t[3] == key[3];
  }

  /** The header length is that of the one match at the front. */
  lemma HeaderSound(t: string, name: string)
    requires HeaderLen(t, name).Some?
    ensures IsHeader(t[..HeaderLen(t, name).value], name)
  {
    var w := SplitStart(t[1..]);
    var inside := TrimStart(t[1..]);
    var key := KeyOf(inside).value;
    var text := key + "." + name;
    var after := inside[|text|..];
    var v := SplitStart(after);
    var tail := TrimStart(after);
    var h := "[" + w + text + v + "]";
    HeaderFront(t, w, inside, text, after, v, tail);
    assert HeaderParts(h, name, w, key, v);
  }

  lemma HeaderFront(t: string, w: string, inside: string, text: string, after: string, v: string, tail: string)
    requires t != "" && t[0] == '[' && t[1..] == w + inside && text <= inside && after == inside[|text|..]
    requires after == v + tail && tail != "" && tail[0] == ']'
    ensures t[..|t| - |tail| + 1] == "[" + w + text + v + "]"
  {
    assert inside == text + after;
    assert t == "[" + w + text + v + tail;
    assert tail == "]" + tail[1..];
    assert t == ("[" + w + text + v + "]") + tail[1..];
  }

  lemma HeaderComplete(h: string, rest: string, name: string)
    requires IsHeader(h, name)
    ensures HeaderLen(h + rest, name) == Some(|h|)
  {
    var w, key, v :| HeaderParts(h, name, w, key, v);
    KeyOfIs(key, "." + name + (v + ("]" + rest)));
    KeyStart(key);
    HeaderFromParts(h, rest, name, w, key, v);
  }

  lemma KeyStart(key: string)
    requires IsKey(key)
    ensures key != "" && !IsSpace(key[0])
  {
  }

  lemma HeaderFromParts(h: string, rest: string, name: string, w: string, key: string, v: string)
    requires h == "[" + w + (key + "." + name) + v + "]" && AllSpace(w) && AllSpace(v)
    requires key != "" && !IsSpace(key[0]) && KeyOf(key + ("." + name + (v + ("]" + rest)))) == Some(key)
    ensures HeaderLen(h + rest, name) == Some(|h|)
  {
    var text := key + "." + name;
    var tail := "]" + rest;
    HeaderTail(h, rest, w, text, v);
    TrimStops(w, text + (v + tail));
    TrimStops(v, tail);
    assert text + (v + tail) == key + ("." + name + (v + tail));
    HeaderComputes(h + rest, name, key, text + (v + tail), tail);
  }

  lemma HeaderComputes(t: string, name: string, key: string, inside: string, tail: string)
    requires t != "" && t[0] == '[' && TrimStart(t[1..]) == inside && KeyOf(inside) == Some(key)
    requires key + "." + name <= inside && TrimStart(inside[|key + "." + name|..]) == tail
    requires tail != "" && tail[0] == ']'
    ensures |tail| <= |t| && HeaderLen(t, name) == Some(|t| - |tail| + 1)
  {
  }

  lemma HeaderTail(h: string, rest: string, w: string, text: string, v: string)
    requires h == "[" + w + text + v + "]"
    ensures (h + rest)[1..] == w + (text + (v + ("]" + rest)))
    ensures (text + (v + ("]" + rest)))[|text|..] == v + ("]" + rest)
  {
  }

  ghost predicate UrlParts(t: string, tail: string, w: string, v: string, x: string) {
    AllSpace(w) && AllSpace(v) && AllSpace(x) && t == w + ("url" + v + ("=" + x + ("\"" + tail)))
  }

  ghost predicate IsUrlThen(t: string, tail: string) {
    exists w, v, x :: UrlParts(t, tail, w, v, x)
  }

  lemma UrlSound(t: string)
    requires UrlTail(t).Some?
    ensures IsUrlThen(t, UrlTail(t).value)
  {
    var w := SplitStart(t);
    var key := TrimStart(t);
    var v := SplitStart(key[3..]);
    var sign := TrimStart(key[3..]);
    var x := SplitStart(sign[1..]);
    var quote := TrimStart(sign[1..]);
    UrlAssembles(t, w, key, v, sign, x, quote);
  }

  lemma UrlAssembles(t: string, w: string, key: string, v: string, sign: string, x: string, quote: string)
    requires AllSpace(w) && AllSpace(v) && AllSpace(x)
    requires t == w + key && "url" <= key && key[3..] == v + sign
    requires sign != "" && sign[0] == '=' && sign[1..] == x + quote && quote != "" && quote[0] == '"'
    ensures IsUrlThen(t, quote[1..])
  {
    assert quote == "\"" + quote[1..];
    assert sign == "=" + sign[1..];
    assert "=" + (x + quote) == "=" + x + quote;
    assert key == "url" + key[3..];
    assert "url" + (v + sign) == "url" + v + sign;
    assert UrlParts(t, quote[1..], w, v, x);
  }

  lemma UrlComplete(t: string, tail: string)
    requires IsUrlThen(t, tail)
    ensures UrlTail(t) == Some(tail)
  {
    var w, v, x :| UrlParts(t, tail, w, v, x);
    var quote := "\"" + tail;
    var sign := "=" + x + quote;
    var key := "url" + v + sign;
    TrimStops(w, key);
    assert key[3..] == v + sign;
    TrimStops(v, sign);
    assert sign[1..] == x + quote;
    TrimStops(x, quote);
  }

  // --- names and urls that cannot be mistaken for structure ---

  predicate CleanText(name: string) {
    '"' !in name && '[' !in name && ']' !in name && '\n' !in name
  }

  /** Brackets are allowed, as in an address of IPv6. */
  predicate CleanUrl(url: string) {
    '"' !in url && '\n' !in url
  }

  /** A header has its only opening bracket in front, its only closing one at its end and no quotes. */
  lemma HeaderShape(h: string, name: string)
    requires IsHeader(h, name) && CleanText(name)
    ensures |h| >= 2 && h[0] == '[' && h[|h| - 1] == ']'
    ensures forall i :: 0 < i < |h| ==> h[i] != '['
    ensures forall i :: 0 <= i < |h| - 1 ==> h[i] != ']'
    ensures '"' !in h
  {
    var w, key, v :| HeaderParts(h, name, w, key, v);
    var inner := w + (key + "." + name) + v;
    assert h == "[" + inner + "]";
    KeyShape(key);
    assert forall i :: 0 <= i < |w| ==> IsSpace(w[i]);
    assert forall i :: 0 <= i < |v| ==> IsSpace(v[i]);
    assert '[' !in w && ']' !in w && '"' !in w;
    assert '[' !in v && ']' !in v && '"' !in v;
    assert '[' !in inner && ']' !in inner && '"' !in inner;
    forall i | 0 < i < |h| - 1 ensures h[i] == inner[i - 1] {}
  }

  lemma KeyShape(key: string)
    requires IsKey(key)
    ensures '[' !in key && ']' !in key && '"' !in key && '\n' !in key
  {
  }

  // --- where headers and breaks can be ---

  /** A header at i is the text of a header there, and only one length fits. */
  lemma HeaderAtIff(s: string, name: string, i: nat, n: nat)
    requires i + n <= |s|
    ensures HeaderAt(s, name, i) == Some(n) <==> LineStart(s, i) && IsHeader(s[i..i + n], name)
  {
    var t := s[i..];
    assert t[..n] == s[i..i + n] && t == t[..n] + t[n..];
    if HeaderAt(s, name, i) == Some(n) {
      HeaderSound(t, name);
    }
    if LineStart(s, i) && IsHeader(s[i..i + n], name) {
      HeaderComplete(t[..n], t[n..], name);
    }
  }

  lemma SamePrefix(s: string, s': string, p: nat, i: nat, j: nat)
    requires i <= j <= p <= |s| && p <= |s'| && s'[..p] == s[..p]
    ensures s'[i..j] == s[i..j] && (LineStart(s', i) <==> LineStart(s, i))
  {
    assert s'[i..j] == s'[..p][i..j] && s[i..j] == s[..p][i..j];
    assert i > 0 ==> s'[i - 1] == s'[..p][i - 1] && s[i - 1] == s[..p][i - 1];
  }

  /** Where text changes only behind an opening bracket at p, no header appears in front of it. */
  lemma NoEarlierHeader(s: string, s': string, name: string, p: nat, i: nat)
    requires CleanText(name) && i < p < |s'| && p <= |s| && s'[..p] == s[..p] && s'[p] == '['
    requires HeaderAt(s, name, i).None?
    ensures HeaderAt(s', name, i).None?
  {
    if HeaderAt(s', name, i).Some? {
      var n := HeaderAt(s', name, i).value;
      HeaderAtIff(s', name, i, n);
      HeaderShape(s'[i..i + n], name);
      forall k | i < k < i + n ensures s'[k] != '[' {
        assert s'[i..i + n][k - i] == s'[k];
      }
      SamePrefix(s, s', p, i, i + n);
      HeaderAtIff(s, name, i, n);
    }
  }

  /** The header found in a file whose text up to and including the header did not change. */
  lemma SameHeader(s: string, s': string, name: string, p: nat, n: nat)
    requires CleanText(name) && FindHeader(s, name) == Some((p, n))
    requires p + n <= |s'| && s'[..p + n] == s[..p + n]
    ensures FindHeader(s', name) == Some((p, n))
  {
    HeaderFromIs(s, name, 0);
    HeaderAtIff(s, name, p, n);
    HeaderShape(s[p..p + n], name);
    assert s'[p..p + n] == s'[..p + n][p..] == s[p..p + n];
    assert s'[..p] == s'[..p + n][..p] == s[..p];
    assert s'[p] == s[p..p + n][0] == '[';
    assert p > 0 ==> s'[p - 1] == s'[..p][p - 1] == s[p - 1];
    HeaderAtIff(s', name, p, n);
    forall j | 0 <= j < p ensures HeaderAt(s', name, j).None? {
      NoHeaderBefore(s, name, 0, j);
      NoEarlierHeader(s, s', name, p, j);
    }
    HeaderFoundAt(s', name, p, n);
  }
}
