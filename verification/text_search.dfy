/** Leftmost occurrences and trimming, as JavaScript strings have them. */
module TextSearch {
  import opened TranscriptLines

  predicate OccursAt(s: string, m: string, i: nat) {
    i + |m| <= |s| && s[i..i + |m|] == m
  }

  ghost predicate Contains(s: string, m: string) {
    exists i :: OccursAt(s, m, i)
  }

  /** `s.indexOf(m)`: the first place m occurs, or -1. */
  function IndexOf(s: string, m: string): (r: int)
    ensures r >= 0 ==> OccursAt(s, m, r) && forall j :: 0 <= j < r ==> !OccursAt(s, m, j)
    ensures r < 0 ==> r == -1 && !Contains(s, m)
  {
    ShiftAll(s, m);
    if m <= s then 0
    else if s == "" then -1
    else
      var i := IndexOf(s[1..], m);
      if i < 0 then -1 else i + 1
  }

  lemma ShiftAll(s: string, m: string)
    ensures OccursAt(s, m, 0) <==> m <= s
    ensures s == "" && m != "" ==> !Contains(s, m)
    ensures s != "" ==> forall j: nat {:trigger OccursAt(s, m, j)} :: j > 0 ==> (OccursAt(s, m, j) <==> OccursAt(s[1..], m, j - 1))
  {
    if s != "" {
      forall j: nat | j > 0 ensures OccursAt(s, m, j) <==> OccursAt(s[1..], m, j - 1) {
        if j + |m| <= |s| {
          assert s[1..][j - 1..j - 1 + |m|] == s[j..j + |m|];
        }
      }
    }
  }

  lemma FirstIs(s: string, m: string, i: nat)
    requires OccursAt(s, m, i) && forall j :: 0 <= j < i ==> !OccursAt(s, m, j)
    ensures IndexOf(s, m) == i
  {
    var r := IndexOf(s, m);
    assert r >= 0;
    assert !(r < i) && !(i < r);
  }

  lemma NoneIs(s: string, m: string)
    requires !Contains(s, m)
    ensures IndexOf(s, m) == -1
  {
  }

  /** Where m occurs around a character that is not part of it. */
  lemma OccursAround(a: string, c: char, b: string, m: string, i: nat)
    requires m != "" && c !in m
    ensures OccursAt(a + [c] + b, m, i) <==>
            if i <= |a| then OccursAt(a, m, i) else OccursAt(b, m, i - |a| - 1)
  {
    var s := a + [c] + b;
    if i + |m| <= |a| {
      assert s[i..i + |m|] == a[i..i + |m|];
    } else if i > |a| {
      if i + |m| <= |s| {
        assert s[i..i + |m|] == b[i - |a| - 1..i - |a| - 1 + |m|];
      }
    } else if i + |m| <= |s| {
      assert s[i..i + |m|][|a| - i] == c;
    }
  }

  /** The first occurrence around a character that is not part of m. */
  lemma FirstAround(a: string, c: char, b: string, m: string)
    requires m != "" && c !in m
    ensures IndexOf(a + [c] + b, m) ==
            if IndexOf(a, m) >= 0 then IndexOf(a, m)
            else if IndexOf(b, m) >= 0 then |a| + 1 + IndexOf(b, m) else -1
  {
    var s := a + [c] + b;
    forall i: nat ensures OccursAt(s, m, i) <==> if i <= |a| then OccursAt(a, m, i) else OccursAt(b, m, i - |a| - 1) {
      OccursAround(a, c, b, m, i);
    }
    var ia, ib := IndexOf(a, m), IndexOf(b, m);
    if ia >= 0 {
      FirstIs(s, m, ia);
    } else if ib >= 0 {
      FirstIs(s, m, |a| + 1 + ib);
    } else {
      NoneIs(s, m);
    }
  }

  /** Text behind an occurrence does not matter. */
  lemma FirstInFront(a: string, b: string, m: string)
    requires IndexOf(a, m) >= 0
    ensures IndexOf(a + b, m) == IndexOf(a, m)
  {
    var i := IndexOf(a, m);
    forall j: nat | j + |m| <= |a| ensures OccursAt(a + b, m, j) <==> OccursAt(a, m, j) {
      assert (a + b)[j..j + |m|] == a[j..j + |m|];
    }
    FirstIs(a + b, m, i);
  }

  lemma ContainsAround(a: string, c: char, b: string, m: string)
    requires m != "" && c !in m
    ensures Contains(a + [c] + b, m) <==> Contains(a, m) || Contains(b, m)
  {
    FirstAround(a, c, b, m);
  }

  /** A text without the first character of m does not contain m. */
  lemma LacksFirst(s: string, m: string)
    requires m != "" && m[0] !in s
    ensures !Contains(s, m)
  {
    forall i: nat ensures !OccursAt(s, m, i) {
      if i + |m| <= |s| {
        assert s[i..i + |m|][0] == s[i];
      }
    }
  }

  // --- trimming ---

  predicate AllSpace(s: string) {
    forall i :: 0 <= i < |s| ==> IsSpace(s[i])
  }

  lemma {:induction false} TrimEndIs(s: string)
    ensures TrimEnd(s) <= s && AllSpace(s[|TrimEnd(s)|..])
    ensures TrimEnd(s) == "" || !IsSpace(TrimEnd(s)[|TrimEnd(s)| - 1])
  {
    if s != "" && IsSpace(s[|s| - 1]) {
      var front := s[..|s| - 1];
      TrimEndIs(front);
      assert s[|TrimEnd(s)|..] == front[|TrimEnd(s)|..] + [s[|s| - 1]];
    }
  }

  lemma {:induction false} TrimStartIs(s: string)
    ensures |TrimStart(s)| <= |s| && TrimStart(s) == s[|s| - |TrimStart(s)|..] && AllSpace(s[..|s| - |TrimStart(s)|])
    ensures TrimStart(s) == "" || !IsSpace(TrimStart(s)[0])
  {
    if s != "" && IsSpace(s[0]) {
      TrimStartIs(s[1..]);
      var n := |s| - |TrimStart(s)|;
      assert s[..n] == [s[0]] + s[1..][..n - 1];
    }
  }

  lemma {:induction false} TrimEndSpace(s: string, w: string)
    requires AllSpace(w)
    ensures TrimEnd(s + w) == TrimEnd(s)
    decreases |w|
  {
    if w == "" {
      assert s + w == s;
    } else {
      var front := w[..|w| - 1];
      assert (s + w)[..|s + w| - 1] == s + front;
      TrimEndSpace(s, front);
    }
  }

  lemma {:induction false} TrimStartSpace(w: string, s: string)
    requires AllSpace(w)
    ensures TrimStart(w + s) == TrimStart(s)
    decreases |w|
  {
    if w == "" {
      assert w + s == s;
    } else {
      assert (w + s)[1..] == w[1..] + s;
      TrimStartSpace(w[1..], s);
    }
  }

  /** Trimming takes away all the white space at both ends and nothing else. */
  lemma TrimIs(a: string, m: string, b: string)
    requires AllSpace(a) && AllSpace(b) && (m != "" ==> !IsSpace(m[0]) && !IsSpace(m[|m| - 1]))
    ensures Trim(a + m + b) == m
  {
    assert a + m + b == a + (m + b);
    TrimStartSpace(a, m + b);
    if m == "" {
      assert m + b == b;
      TrimStartSpace(b, "");
      assert b + "" == b;
    } else {
      assert (m + b)[0] == m[0];
      TrimEndSpace(m, b);
    }
  }

  /** Trimming leaves a text alone exactly when it has no space at that end. */
  lemma TrimEndTwice(s: string)
    ensures TrimEnd(TrimEnd(s)) == TrimEnd(s)
  {
    TrimEndIs(s);
  }

  lemma TrimStartTwice(s: string)
    ensures TrimStart(TrimStart(s)) == TrimStart(s)
  {
    TrimStartIs(s);
  }

  /** A text is blank when it is all white space. */
  lemma BlankIff(s: string)
    ensures Blank(s) <==> AllSpace(s)
    ensures Blank(s) <==> TrimEnd(s) == ""
    ensures Blank(s) <==> TrimStart(s) == ""
  {
    BlankEnd(s);
    BlankStart(s);
    BlankEnd(TrimStart(s));
    BlankStart(TrimStart(s));
    TrimStartTwice(s);
  }

  lemma BlankEnd(s: string)
    ensures AllSpace(s) <==> TrimEnd(s) == ""
  {
    TrimEndIs(s);
    if TrimEnd(s) != "" {
      assert s[|TrimEnd(s)| - 1] == TrimEnd(s)[|TrimEnd(s)| - 1];
    } else {
      assert s[0..] == s;
    }
  }

  lemma BlankStart(s: string)
    ensures AllSpace(s) <==> TrimStart(s) == ""
  {
    TrimStartIs(s);
    if TrimStart(s) != "" {
      assert s[|s| - |TrimStart(s)|] == TrimStart(s)[0];
    } else {
      assert s[..|s|] == s;
    }
  }
}
