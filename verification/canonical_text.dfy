/**
 * Text as UTF-16 code units, the order and the string and number tokens of canonical JSON
 * (sections 6 and 7 of RFC 8259, section 3.2.3 of RFC 8785).
 */
module CanonicalText {
  import opened Wrappers
  import opened Sequences

  type Unit = u: int | 0 <= u < 0x10000

  type Text = seq<Unit>

  const QUOTE: Unit := '"' as int
  const COMMA: Unit := ',' as int
  const MINUS: Unit := '-' as int
  const COLON: Unit := ':' as int
  const OPEN_BRACKET: Unit := '[' as int
  const BACKSLASH: Unit := '\\' as int
  const CLOSE_BRACKET: Unit := ']' as int
  const LETTER_U: Unit := 'u' as int
  const OPEN_BRACE: Unit := '{' as int
  const CLOSE_BRACE: Unit := '}' as int

  const NULL_TEXT: Text := [110, 117, 108, 108]
  const TRUE_TEXT: Text := [116, 114, 117, 101]
  const FALSE_TEXT: Text := [102, 97, 108, 115, 101]
  const UNDEFINED_TEXT: Text := [117, 110, 100, 101, 102, 105, 110, 101, 100]

  /** A text of ASCII characters. */
  function Spelled(s: string): (z: Text)
    requires forall i :: 0 <= i < |s| ==> s[i] as int < 128
    ensures |z| == |s| && forall i :: 0 <= i < |s| ==> z[i] == s[i] as int
  {
    seq(|s|, i requires 0 <= i < |s| => s[i] as int)
  }

  // --- key order: by code units ---

  predicate Before(a: Text, b: Text) {
    if b == [] then false
    else if a == [] then true
    else if a[0] != b[0] then a[0] < b[0]
    else Before(a[1..], b[1..])
  }

  lemma {:induction false} BeforeTransitive(a: Text, b: Text, c: Text)
    requires Before(a, b) && Before(b, c)
    ensures Before(a, c)
  {
    if a != [] && a[0] == b[0] && b[0] == c[0] {
      BeforeTransitive(a[1..], b[1..], c[1..]);
    }
  }

  lemma {:induction false} BeforeTotal(a: Text, b: Text)
    ensures Before(a, b) || Before(b, a) || a == b
    ensures !(Before(a, b) && Before(b, a)) && !Before(a, a)
  {
    if a != [] {
      BeforeTotal(a[1..], a[1..]);
      if b != [] {
        BeforeTotal(a[1..], b[1..]);
        assert a == [a[0]] + a[1..] && b == [b[0]] + b[1..];
      }
    }
  }

  ghost predicate Increasing(keys: seq<Text>) {
    forall i, j :: 0 <= i < j < |keys| ==> Before(keys[i], keys[j])
  }

  function InsertKey(key: Text, keys: seq<Text>): seq<Text> {
    if keys == [] || Before(key, keys[0]) then [key] + keys
    else [keys[0]] + InsertKey(key, keys[1..])
  }

  /** Ascending order of distinct keys. */
  function SortKeys(keys: seq<Text>): seq<Text> {
    if keys == [] then [] else InsertKey(keys[0], SortKeys(keys[1..]))
  }

  lemma {:induction false} InsertKeyIncreasing(key: Text, keys: seq<Text>)
    requires Increasing(keys) && key !in keys
    ensures Increasing(InsertKey(key, keys))
    ensures forall k :: k in InsertKey(key, keys) <==> k == key || k in keys
  {
    if keys == [] {
    } else if Before(key, keys[0]) {
      forall i | 0 <= i < |keys| ensures Before(key, keys[i]) {
        if i > 0 { BeforeTransitive(key, keys[0], keys[i]); }
      }
    } else {
      InsertKeyIncreasing(key, keys[1..]);
      BeforeTotal(key, keys[0]);
      var rest := InsertKey(key, keys[1..]);
      forall i | 0 <= i < |rest| ensures Before(keys[0], rest[i]) {
        assert rest[i] in rest;
      }
      assert forall k :: k in keys <==> k == keys[0] || k in keys[1..];
    }
  }

  lemma {:induction false} SortKeysIncreasing(keys: seq<Text>)
    requires Distinct(keys)
    ensures Increasing(SortKeys(keys))
    ensures forall k :: k in SortKeys(keys) <==> k in keys
  {
    if keys != [] {
      SortKeysIncreasing(keys[1..]);
      InsertKeyIncreasing(keys[0], SortKeys(keys[1..]));
      assert forall k :: k in keys <==> k == keys[0] || k in keys[1..];
    }
  }

  /** An increasing sequence is determined by its set of members. */
  lemma {:induction false} IncreasingUnique(a: seq<Text>, b: seq<Text>)
    requires Increasing(a) && Increasing(b)
    requires forall k :: k in a <==> k in b
    ensures a == b
  {
    if a != [] { assert a[0] in a; }
    if b != [] { assert b[0] in b; }
    if a != [] && b != [] {
      BeforeTotal(a[0], b[0]);
      assert a[0] == b[0];
      assert forall k :: k in a[1..] <==> k in a && k != a[0] by { TailMembers(a); }
      assert forall k :: k in b[1..] <==> k in b && k != b[0] by { TailMembers(b); }
      IncreasingUnique(a[1..], b[1..]);
      assert a == [a[0]] + a[1..] && b == [b[0]] + b[1..];
    }
  }

  lemma TailMembers(a: seq<Text>)
    requires Increasing(a) && a != []
    ensures forall k :: k in a[1..] <==> k in a && k != a[0]
  {
    forall k ensures k in a[1..] <==> k in a && k != a[0] {
      if k in a[1..] {
        var i :| 1 <= i < |a| && a[i] == k;
        BeforeTotal(a[0], a[i]);
      }
    }
  }

  // --- string tokens ---

  predicate IsLead(u: Unit) { 0xD800 <= u <= 0xDBFF }

  predicate IsTrail(u: Unit) { 0xDC00 <= u <= 0xDFFF }

  function HexDigit(d: int): (u: Unit)
    requires 0 <= d < 16
    ensures u != QUOTE
  {
    if d < 10 then 48 + d else 87 + d
  }

  function HexValue(u: Unit): Option<int> {
    if 48 <= u <= 57 then Some(u - 48) else if 97 <= u <= 102 then Some(u - 87) else None
  }

  function Hex4(u: Unit): Text {
    [HexDigit(u / 16 / 16 / 16), HexDigit(u / 16 / 16 % 16), HexDigit(u / 16 % 16), HexDigit(u % 16)]
  }

  /** The letter of a two-character escape, for the units that have one. */
  function ShortEscape(u: Unit): Option<Unit> {
    if u == QUOTE then Some(QUOTE)
    else if u == BACKSLASH then Some(BACKSLASH)
    else if u == 8 then Some(98)
    else if u == 9 then Some(116)
    else if u == 10 then Some(110)
    else if u == 12 then Some(102)
    else if u == 13 then Some(114)
    else None
  }

  function ShortUnescape(letter: Unit): Option<Unit> {
    if letter == QUOTE then Some(QUOTE)
    else if letter == BACKSLASH then Some(BACKSLASH)
    else if letter == 98 then Some(8)
    else if letter == 116 then Some(9)
    else if letter == 110 then Some(10)
    else if letter == 102 then Some(12)
    else if letter == 114 then Some(13)
    else None
  }

  function EscapeUnit(u: Unit): Text {
    if ShortEscape(u).Some? then [BACKSLASH, ShortEscape(u).value]
    else if u < 32 || IsLead(u) || IsTrail(u) then [BACKSLASH, LETTER_U] + Hex4(u)
    else [u]
  }

  /** `JSON.stringify` between the quotes: surrogate pairs stay, lone surrogates are escaped. */
  function Escape(s: Text): Text {
    if s == [] then []
    else if |s| > 1 && IsLead(s[0]) && IsTrail(s[1]) then [s[0], s[1]] + Escape(s[2..])
    else EscapeUnit(s[0]) + Escape(s[1..])
  }

  function Quote(s: Text): Text {
    [QUOTE] + Escape(s) + [QUOTE]
  }

  /** Reads one character, raw or escaped. */
  function ReadUnit(z: Text): (r: Option<(Unit, Text)>)
    ensures r.Some? ==> |r.value.1| < |z|
  {
    if z == [] then None
    else if z[0] != BACKSLASH then Some((z[0], z[1..]))
    else if |z| < 2 then None
    else if z[1] != LETTER_U then
      var u := ShortUnescape(z[1]);
      if u.Some? then Some((u.value, z[2..])) else None
    else if |z| < 6 then None
    else
      var a, b, c, d := HexValue(z[2]), HexValue(z[3]), HexValue(z[4]), HexValue(z[5]);
      if a.Some? && b.Some? && c.Some? && d.Some?
      then Some((((a.value * 16 + b.value) * 16 + c.value) * 16 + d.value, z[6..]))
      else None
  }

  /** Reads up to and including the closing quote. */
  function ReadString(z: Text): (r: Option<(Text, Text)>)
    ensures r.Some? ==> |r.value.1| < |z|
    decreases |z|
  {
    if z == [] then None
    else if z[0] == QUOTE then Some(([], z[1..]))
    else
      var head := ReadUnit(z);
      if head.None? then None
      else
        var tail := ReadString(head.value.1);
        if tail.None? then None else Some(([head.value.0] + tail.value.0, tail.value.1))
  }

  lemma HexRoundTrip(d: int)
    requires 0 <= d < 16
    ensures HexValue(HexDigit(d)) == Some(d)
  {
  }

  lemma Hex4Value(u: Unit)
    ensures ((u / 16 / 16 / 16 * 16 + u / 16 / 16 % 16) * 16 + u / 16 % 16) * 16 + u % 16 == u
  {
    var x, y := u / 16, u / 16 / 16;
    assert y / 16 * 16 + y % 16 == y;
    assert y * 16 + x % 16 == x;
    assert x * 16 + u % 16 == u;
  }

  lemma ReadEscapedUnit(u: Unit, rest: Text)
    ensures ReadUnit(EscapeUnit(u) + rest) == Some((u, rest))
    ensures EscapeUnit(u)[0] != QUOTE
  {
    var z := EscapeUnit(u) + rest;
    if ShortEscape(u).Some? {
      assert z[2..] == rest;
    } else if u < 32 || IsLead(u) || IsTrail(u) {
      Hex4Value(u);
      assert z[6..] == rest;
      assert z[2] == HexDigit(u / 16 / 16 / 16) && z[3] == HexDigit(u / 16 / 16 % 16);
      assert z[4] == HexDigit(u / 16 % 16) && z[5] == HexDigit(u % 16);
      HexRoundTrip(u / 16 / 16 / 16);
      HexRoundTrip(u / 16 / 16 % 16);
      HexRoundTrip(u / 16 % 16);
      HexRoundTrip(u % 16);
    } else {
      assert z[1..] == rest;
    }
  }

  lemma ReadStringStep(z: Text, u: Unit, tail: Text, s: Text, rest: Text)
    requires z != [] && z[0] != QUOTE && ReadUnit(z) == Some((u, tail)) && ReadString(tail) == Some((s, rest))
    ensures ReadString(z) == Some(([u] + s, rest))
  {
  }

  /** The text of an escaped string, its closing quote and whatever follows. */
  function Quoted(s: Text, rest: Text): Text {
    Escape(s) + ([QUOTE] + rest)
  }

  lemma QuotedPair(s: Text, rest: Text)
    requires |s| > 1 && IsLead(s[0]) && IsTrail(s[1])
    ensures Quoted(s, rest) == [s[0]] + ([s[1]] + Quoted(s[2..], rest))
  {
    assert Escape(s) == [s[0], s[1]] + Escape(s[2..]);
  }

  lemma QuotedUnit(s: Text, rest: Text)
    requires s != [] && !(|s| > 1 && IsLead(s[0]) && IsTrail(s[1]))
    ensures Quoted(s, rest) == EscapeUnit(s[0]) + Quoted(s[1..], rest)
  {
    Associate(EscapeUnit(s[0]), Escape(s[1..]), [QUOTE] + rest);
  }

  lemma ReadRaw(u: Unit, tail: Text, s: Text, rest: Text)
    requires u != QUOTE && u != BACKSLASH && ReadString(tail) == Some((s, rest))
    ensures ReadString([u] + tail) == Some(([u] + s, rest))
  {
    assert ([u] + tail)[1..] == tail;
    ReadStringStep([u] + tail, u, tail, s, rest);
  }

  /** A printed string reads back as itself, and the reader stops right after it. */
  lemma {:induction false} ReadQuoted(s: Text, rest: Text)
    ensures ReadString(Quoted(s, rest)) == Some((s, rest))
  {
    if s == [] {
      assert Quoted(s, rest) == [QUOTE] + rest;
    } else if |s| > 1 && IsLead(s[0]) && IsTrail(s[1]) {
      ReadQuoted(s[2..], rest);
      QuotedPair(s, rest);
      ReadRaw(s[1], Quoted(s[2..], rest), s[2..], rest);
      ReadRaw(s[0], [s[1]] + Quoted(s[2..], rest), [s[1]] + s[2..], rest);
      assert [s[0]] + ([s[1]] + s[2..]) == s;
    } else {
      ReadQuoted(s[1..], rest);
      QuotedUnit(s, rest);
      ReadEscapedUnit(s[0], Quoted(s[1..], rest));
      ReadStringStep(Quoted(s, rest), s[0], Quoted(s[1..], rest), s[1..], rest);
      assert [s[0]] + s[1..] == s;
    }
  }

  // --- integer tokens ---

  predicate IsDigit(u: Unit) { 48 <= u <= 57 }

  function Digits(n: nat): (t: Text)
    ensures t != [] && forall i :: 0 <= i < |t| ==> IsDigit(t[i])
  {
    if n < 10 then [48 + n] else Digits(n / 10) + [48 + n % 10]
  }

  function DigitsValue(t: Text): nat
    requires forall i :: 0 <= i < |t| ==> IsDigit(t[i])
  {
    if t == [] then 0
    else
      var last: int := t[|t| - 1];
      assert IsDigit(t[|t| - 1]);
      DigitsValue(t[..|t| - 1]) * 10 + (last - 48)
  }

  function PrintInt(n: int): Text {
    if n < 0 then [MINUS] + Digits(-n) else Digits(n)
  }

  function DigitRun(z: Text): (n: nat)
    ensures n <= |z| && forall i :: 0 <= i < n ==> IsDigit(z[i])
  {
    if z == [] || !IsDigit(z[0]) then 0 else 1 + DigitRun(z[1..])
  }

  function ReadInt(z: Text): (r: Option<(int, Text)>)
    ensures r.Some? ==> |r.value.1| < |z|
  {
    if z != [] && z[0] == MINUS then
      var n := DigitRun(z[1..]);
      var value: int := DigitsValue(z[1..][..n]);
      if n == 0 then None else Some((-value, z[1..][n..]))
    else
      var n := DigitRun(z);
      if n == 0 then None else Some((DigitsValue(z[..n]), z[n..]))
  }

  /** What may follow a number: anything but another digit. */
  predicate EndsNumber(rest: Text) {
    rest == [] || !IsDigit(rest[0])
  }

  lemma {:induction false} DigitsRoundTrip(n: nat)
    ensures DigitsValue(Digits(n)) == n
  {
    if n >= 10 {
      DigitsRoundTrip(n / 10);
      assert (Digits(n / 10) + [48 + n % 10])[..|Digits(n / 10)|] == Digits(n / 10);
    }
  }

  lemma {:induction false} DigitRunOf(t: Text, rest: Text)
    requires forall i :: 0 <= i < |t| ==> IsDigit(t[i])
    requires EndsNumber(rest)
    ensures DigitRun(t + rest) == |t|
  {
    if t == [] {
      assert t + rest == rest;
    } else {
      assert (t + rest)[1..] == t[1..] + rest;
      DigitRunOf(t[1..], rest);
    }
  }

  lemma ReadDigits(n: nat, rest: Text)
    requires EndsNumber(rest)
    ensures var t, read := Digits(n), Digits(n) + rest;
            DigitRun(read) == |t| && DigitsValue(read[..|t|]) == n && read[|t|..] == rest
  {
    DigitsRoundTrip(n);
    DigitRunOf(Digits(n), rest);
    assert (Digits(n) + rest)[..|Digits(n)|] == Digits(n);
  }

  lemma ReadPrintedInt(n: int, rest: Text)
    requires EndsNumber(rest)
    ensures ReadInt(PrintInt(n) + rest) == Some((n, rest))
  {
    if n < 0 {
      Associate([45], Digits(-n), rest);
      ReadDigits(-n, rest);
      assert ([45] + (Digits(-n) + rest))[1..] == Digits(-n) + rest;
    } else {
      ReadDigits(n, rest);
      assert IsDigit((Digits(n) + rest)[0]);
    }
  }
}
