/** The verifier on updated files: what it accepts, and the file it refuses. */
module TomlVerifier {
  import opened Wrappers
  import opened TranscriptLines
  import opened TextSearch
  import opened TomlSection
  import opened TomlLaws

  // --- a url that is not empty ---

  /** A url line in a section is a url line of the file. */
  lemma UrlInFile(a: string, section: string, c: string, j: nat, url: string)
    requires j <= |section| && UrlAt(section, j) == Some(url) && section != "" && section[0] == '['
    ensures UrlIsAt(a + section + c, |a| + j, url)
  {
    var s := a + section + c;
    NotAtBracket(section, j);
    assert s[|a| + j - 1] == section[j - 1];
    assert s[|a| + j..] == section[j..] + c;
    UrlThenMore(section[j..], c, url);
  }

  lemma UrlThenMore(t: string, c: string, url: string)
    requires UrlOf(t) == Some(url)
    ensures UrlTail(t + c).Some? && url + "\"" <= UrlTail(t + c).value
  {
    var tail := UrlTail(t).value;
    var q := QuoteIndex(tail);
    UrlSound(t);
    UrlGrows(t, tail, c);
    assert tail[..q + 1] == url + "\"";
    assert tail + c == (url + "\"") + (tail[q + 1..] + c);
  }

  lemma NotAtBracket(section: string, j: nat)
    requires j <= |section| && UrlAt(section, j).Some? && section != "" && section[0] == '['
    ensures j > 0
  {
    assert section[0..] == section;
  }

  lemma UrlGrows(t: string, tail: string, c: string)
    requires IsUrlThen(t, tail)
    ensures UrlTail(t + c) == Some(tail + c)
  {
    var w, v, x :| UrlParts(t, tail, w, v, x);
    assert t + c == w + ("url" + v + ("=" + x + ("\"" + (tail + c))));
    assert UrlParts(t + c, tail + c, w, v, x);
    UrlComplete(t + c, tail + c);
  }

  /** A url written by an update is found by the verifier. */
  lemma WrittenFound(content: string, name: string, url: string)
    requires CleanText(name) && CleanUrl(url) && url != ""
    ensures Verify(Update(content, name, url), Some(url), name)
  {
    var updated := Update(content, name, url);
    UpdateThenRead(content, name, url);
    var section := SectionIn(updated, name).value;
    var i, n := SectionIs(updated, name, section);
    var text := section.header + section.body;
    HeaderShape(section.header, name);
    var j := UrlFoundSomewhere(text, 0);
    UrlInFile(section.before, text, section.behind, j, url);
    Regroup(section.before, section.header, section.body, section.behind);
  }

  // --- the empty url ---

  /** A url line begins at j, and its quotes are not closed at once. */
  predicate OpensAt(s: string, j: nat)
    requires j <= |s|
  {
    LineStart(s, j) && UrlTail(s[j..]).Some? && !("\"" <= UrlTail(s[j..]).value)
  }

  predicate OpensUrl(s: string) {
    exists j :: 0 <= j <= |s| && OpensAt(s, j)
  }

  /** A file in which the verifier finds some url line outside the section. */
  predicate UrlOutside(content: string, name: string) {
    match SectionIn(content, name)
    case None => OpensUrl(content)
    case Some(section) => OpensUrl(section.before) || FindUrl(section.behind).Some?
  }

  lemma FindUrlIff(s: string)
    ensures FindUrl(s).Some? <==> exists j :: 0 <= j <= |s| && UrlAt(s, j).Some?
  {
    if FindUrl(s).Some? {
      var j := UrlFoundSomewhere(s, 0);
    } else if exists j :: 0 <= j <= |s| && UrlAt(s, j).Some? {
      var j :| 0 <= j <= |s| && UrlAt(s, j).Some?;
      UrlFromReaches(s, 0, j);
    }
  }

  lemma {:induction false} UrlFromReaches(s: string, from: nat, j: nat)
    requires from <= j <= |s| && UrlAt(s, j).Some?
    ensures UrlFrom(s, from).Some?
    decreases j - from
  {
    if from < j {
      UrlFromReaches(s, from + 1, j);
    }
  }

  /** The opening bracket at n comes before any quote in k. */
  predicate BracketFirst(k: string, n: nat) {
    n < |k| && k[n] == '[' && '"' !in k[..n]
  }

  /** No url line reaches past an opening bracket to its quote. */
  lemma TailWithin(t: string, k: string, n: nat)
    requires BracketFirst(k, n)
    ensures UrlTail(t + k) == if UrlTail(t).Some? then Some(UrlTail(t).value + k) else None
  {
    if UrlTail(t).Some? {
      UrlSound(t);
      UrlGrows(t, UrlTail(t).value, k);
    } else if UrlTail(t + k).Some? {
      UrlSound(t + k);
      var tail := UrlTail(t + k).value;
      var w, v, x :| UrlParts(t + k, tail, w, v, x);
      var front := w + "url" + v + "=" + x;
      UrlFront(w, v, x, tail);
      QuoteWithin(t, k, n, front, tail);
      UrlFront(w, v, x, t[|front| + 1..]);
      assert UrlParts(t, t[|front| + 1..], w, v, x);
      UrlComplete(t, t[|front| + 1..]);
    }
  }

  lemma UrlFront(w: string, v: string, x: string, tail: string)
    requires AllSpace(w) && AllSpace(v) && AllSpace(x)
    ensures var front := w + "url" + v + "=" + x;
            '[' !in front && w + ("url" + v + ("=" + x + ("\"" + tail))) == front + "\"" + tail
  {
    assert '[' !in w && '[' !in v && '[' !in x;
  }

  lemma QuoteWithin(t: string, k: string, n: nat, front: string, tail: string)
    requires BracketFirst(k, n) && t + k == front + "\"" + tail && '[' !in front
    ensures |front| < |t| && t == front + "\"" + t[|front| + 1..]
  {
    var s := t + k;
    assert s[|front|] == '"';
    assert forall i :: 0 <= i < |front| ==> s[i] == front[i] != '[';
    assert s[|t| + n] == '[';
    assert forall i :: |t| <= i < |t| + n ==> s[i] == k[..n][i - |t|];
    assert |front| < |t|;
    assert s[..|front|] == front && s[..|t|] == t;
    assert t[..|front|] == s[..|t|][..|front|];
  }

  /** In front of a bracket a url line is found where one is opened. */
  lemma FoundInFront(a: string, k: string, n: nat, j: nat)
    requires BracketFirst(k, n) && '"' in k && j <= |a|
    ensures UrlAt(a + k, j).Some? <==> OpensAt(a, j)
  {
    var t := a[j..];
    assert (a + k)[j..] == t + k;
    assert j > 0 ==> (a + k)[j - 1] == a[j - 1];
    TailWithin(t, k, n);
    if UrlTail(t).Some? {
      ClosedLater(UrlTail(t).value, k, n);
    }
  }

  lemma ClosedLater(tail: string, k: string, n: nat)
    requires BracketFirst(k, n) && '"' in k
    ensures QuoteIndex(tail + k) < |tail + k| && (QuoteIndex(tail + k) == 0 <==> "\"" <= tail)
  {
    var i :| 0 <= i < |k| && k[i] == '"';
    assert (tail + k)[|tail| + i] == '"';
    assert k[0] != '"' by {
      assert n > 0 ==> k[..n][0] == k[0];
    }
    assert (tail + k)[0] == if tail == "" then k[0] else tail[0];
  }

  lemma UrlShift(a: string, k: string, i: nat)
    requires 0 < i <= |k|
    ensures UrlAt(a + k, |a| + i) == UrlAt(k, i)
  {
    assert (a + k)[|a| + i..] == k[i..];
    assert (a + k)[|a| + i - 1] == k[i - 1];
  }

  lemma NoneBeforeBracket(k: string, n: nat, i: nat)
    requires BracketFirst(k, n) && i <= n
    ensures UrlAt(k, i).None?
  {
    assert BracketFirst(k[i..], n - i) by {
      assert forall l :: 0 <= l < n - i ==> k[i..][l] == k[..n][i + l];
    }
    TailWithin("", k[i..], n - i);
    assert "" + k[i..] == k[i..];
  }

  /** Behind a header and an empty url line, the url lines are those of what follows. */
  lemma FoundBehind(h: string, name: string, c: string, m: string, i: nat)
    requires IsHeader(h, name) && CleanText(name) && UrlAt(c, 0).None?
    requires m == h + (UrlLine("") + c) && i <= |m|
    ensures |c| <= |m| && UrlAt(m, i) == if i <= |m| - |c| then None else UrlAt(c, i - (|m| - |c|))
  {
    var p := |h| + |UrlLine("")|;
    if i <= p {
      if i <= |h| { NoUrlInHeader(h, name, UrlLine("") + c, i); }
      NoEmptyUrl(h, c, i, m);
    } else {
      assert m == (h + UrlLine("")) + c;
      UrlShift(h + UrlLine(""), c, i - p);
    }
  }

  /** Where the url lines of a file with an empty url line in its section can be. */
  lemma EmptyUrlFile(a: string, g: string, h: string, name: string, c: string)
    requires IsHeader(h, name) && CleanText(name) && UrlAt(c, 0).None? && '"' !in g
    ensures FindUrl(a + (g + (h + (UrlLine("") + c)))).Some? <==> OpensUrl(a) || FindUrl(c).Some?
  {
    var m := h + (UrlLine("") + c);
    var s := a + (g + m);
    forall j: nat | j <= |s|
      ensures UrlAt(s, j).Some? <==>
              if j <= |a| then OpensAt(a, j) else j > |s| - |c| && UrlAt(c, j - (|s| - |c|)).Some?
    {
      EmptyUrlPosition(a, g, h, name, c, m, j);
    }
    SomewhereIn(s, a, c);
  }

  lemma EmptyUrlPosition(a: string, g: string, h: string, name: string, c: string, m: string, j: nat)
    requires IsHeader(h, name) && CleanText(name) && UrlAt(c, 0).None? && '"' !in g
    requires m == h + (UrlLine("") + c) && j <= |a + (g + m)|
    ensures var p := |a| + |g| + |m| - |c|;
            UrlAt(a + (g + m), j).Some? <==> if j <= |a| then OpensAt(a, j) else j > p && UrlAt(c, j - p).Some?
  {
    MiddleShape(g, h, name, c);
    if j > |a| + |g| {
      FoundBehind(h, name, c, m, j - |a| - |g|);
    }
    EmptyUrlAt(a, g, m, c, j);
  }

  lemma MiddleShape(g: string, h: string, name: string, c: string)
    requires IsHeader(h, name) && CleanText(name) && '"' !in g
    ensures var k := g + (h + (UrlLine("") + c));
            BracketFirst(k, |g|) && '"' in k
  {
    HeaderShape(h, name);
    var k := g + (h + (UrlLine("") + c));
    assert k[|g|] == h[0] && k[..|g|] == g;
    assert UrlLine("")[7] == '"' && k[|g| + |h| + 7] == UrlLine("")[7];
  }

  /** A url line of the whole file at j: one opened in front, or one behind. */
  lemma EmptyUrlAt(a: string, g: string, m: string, c: string, j: nat)
    requires BracketFirst(g + m, |g|) && '"' in g + m && |c| <= |m| && j <= |a + (g + m)|
    requires var i := j - |a| - |g|;
             i > 0 ==> UrlAt(m, i) == if i <= |m| - |c| then None else UrlAt(c, i - (|m| - |c|))
    ensures var p := |a| + |g| + |m| - |c|;
            UrlAt(a + (g + m), j).Some? <==> if j <= |a| then OpensAt(a, j) else j > p && UrlAt(c, j - p).Some?
  {
    var k := g + m;
    if j <= |a| {
      FoundInFront(a, k, |g|, j);
    } else {
      UrlShift(a, k, j - |a|);
      if j - |a| <= |g| {
        NoneBeforeBracket(k, |g|, j - |a|);
      } else {
        UrlShift(g, m, j - |a| - |g|);
      }
    }
  }

  lemma SomewhereIn(s: string, a: string, c: string)
    requires |a| + |c| <= |s| && UrlAt(c, 0).None?
    requires forall j: nat :: j <= |s| ==>
               (UrlAt(s, j).Some? <==> if j <= |a| then OpensAt(a, j) else j > |s| - |c| && UrlAt(c, j - (|s| - |c|)).Some?)
    ensures FindUrl(s).Some? <==> OpensUrl(a) || FindUrl(c).Some?
  {
    FindUrlIff(s);
    FindUrlIff(c);
    var p := |s| - |c|;
    if OpensUrl(a) {
      var j :| 0 <= j <= |a| && OpensAt(a, j);
      assert UrlAt(s, j).Some?;
    }
    if i: nat :| i <= |c| && UrlAt(c, i).Some? {
      assert UrlAt(s, p + i).Some?;
    }
  }

  /** The verifier asks an updated file only for some url line when the url is empty. */
  lemma EmptyUrlVerify(content: string, name: string)
    requires CleanText(name)
    ensures Verify(Update(content, name, ""), Some(""), name) <==> FindUrl(Update(content, name, "")).Some?
  {
    UpdateThenRead(content, name, "");
  }

  lemma BreakOpensNone(c: string)
    requires c == "" || c == "\n" || BreaksAt(c)
    ensures UrlAt(c, 0).None?
  {
    assert c[0..] == c;
  }

  lemma BlankOpensNone(s: string)
    requires Trim(s) == ""
    ensures !OpensUrl(s)
  {
    BlankIff(s);
    forall j | 0 <= j <= |s| ensures !OpensAt(s, j) {
      BlankIff(s[j..]);
      BlankStart(s[j..]);
    }
  }

  lemma CommentOpensNone()
    ensures !OpensUrl(COMMENT)
  {
    assert COMMENT[|COMMENT|..] == "" && COMMENT[0..] == COMMENT;
    assert forall j :: 0 < j < |COMMENT| ==> !LineStart(COMMENT, j);
  }

  /** What the verifier finds after an update to the empty url. */
  lemma EmptyUrlFound(content: string, name: string)
    requires CleanText(name)
    ensures FindUrl(Update(content, name, "")).Some? <==> UrlOutside(content, name)
  {
    match SectionIn(content, name)
    case None => AppendedFinds(content, name);
    case Some(section) => ReplacedFinds(content, name, section);
  }

  lemma AppendedFinds(content: string, name: string)
    requires CleanText(name) && SectionIn(content, name).None?
    ensures FindUrl(Update(content, name, "")).Some? <==> OpensUrl(content)
  {
    var stem, gap, h := Stem(content), Gap(content), PlainHeader(name);
    UpdateAppends(content, name, "");
    PlainHeaderIs(name);
    BreakOpensNone("\n");
    EmptyUrlFile(stem, gap, h, name, "\n");
    AppendedRegroup(stem, gap, h, UrlLine("") + "\n");
    NewlineHasNone();
    if Trim(content) == "" {
      BlankOpensNone(content);
      CommentOpensNone();
    }
  }

  lemma AppendedRegroup(a: string, g: string, h: string, u: string)
    ensures a + g + h + u == a + (g + (h + u))
  {
  }

  lemma ReplacedFinds(content: string, name: string, section: Section)
    requires CleanText(name) && SectionIn(content, name) == Some(section)
    ensures FindUrl(Update(content, name, "")).Some? <==> OpensUrl(section.before) || FindUrl(section.behind).Some?
  {
    var a, h, c := section.before, section.header, section.behind;
    var i, n := SectionIs(content, name, section);
    UpdateReplaces(content, name, "", section);
    NeverEmpty(section);
    BreakOpensNone(c);
    EmptyUrlFile(a, "", h, name, c);
    ReplacedRegroup(a, h, UrlLine(""), c);
  }

  lemma ReplacedRegroup(a: string, h: string, u: string, c: string)
    ensures a + h + u + c == a + ("" + (h + (u + c)))
  {
  }

  lemma NewlineHasNone()
    ensures FindUrl("\n").None?
  {
    assert "\n"[1..] == "" && "\n"[0..] == "\n";
    NoUrlFound("\n");
  }

  /** The verifier accepts an updated file, if and only if the url is not empty or a url line stands outside the section. */
  lemma VerifyIff(content: string, name: string, url: string)
    requires CleanText(name) && CleanUrl(url)
    ensures Verify(Update(content, name, url), Some(url), name) <==> url != "" || UrlOutside(content, name)
  {
    if url != "" {
      WrittenFound(content, name, url);
    } else {
      EmptyUrlVerify(content, name);
      EmptyUrlFound(content, name);
    }
  }

  /** An empty file updated to an empty url: the verifier refuses the result, and a second update changes it again. */
  lemma EmptyUrlExample()
    ensures var once := Update("", "tool-evolver", "");
            && !Verify(once, Some(""), "tool-evolver")
            && Update(once, "tool-evolver", "") != once
  {
    var name := "tool-evolver";
    assert FindHeader("", name).None?;
    BlankOpensNone("");
    VerifyIff("", name, "");
    UpdateTwiceIff("", name, "");
  }
}
