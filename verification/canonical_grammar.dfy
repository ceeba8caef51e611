/**
 * The canonical text spelled out: which characters a value is written with, stated as a
 * grammar over the value itself (sections 2 to 7 of RFC 8259, section 3.2 of RFC 8785).
 */
module CanonicalGrammar {
  import opened Wrappers
  import opened Sequences
  import opened CanonicalText
  import opened CanonicalJson
  import opened CanonicalUnique

  // --- numbers ---

  predicate Decimal(z: Text) {
    z != [] && (forall i :: 0 <= i < |z| ==> '0' as int <= z[i] <= '9' as int) && (|z| > 1 ==> z[0] != '0' as int)
  }

  function ValueOf(z: Text): int {
    if z == [] then 0 else ValueOf(z[..|z| - 1]) * 10 + (z[|z| - 1] - '0' as int)
  }

  /** A decimal numeral without leading zeros, a minus sign in front of a negative one. */
  ghost predicate WritesNumber(n: int, z: Text) {
    if n < 0 then z != [] && z[0] == '-' as int && Decimal(z[1..]) && ValueOf(z[1..]) == -n
    else Decimal(z) && ValueOf(z) == n
  }

  lemma {:induction false} DigitsWrite(n: nat)
    ensures Decimal(Digits(n)) && ValueOf(Digits(n)) == n && (n > 0 ==> Digits(n)[0] != '0' as int)
  {
    if n >= 10 {
      DigitsWrite(n / 10);
      assert Digits(n)[..|Digits(n)| - 1] == Digits(n / 10);
    } else {
      assert Digits(n)[..0] == [];
    }
  }

  lemma {:induction false} OnlyDigits(z: Text)
    requires Decimal(z)
    ensures ValueOf(z) >= 0 && z == Digits(ValueOf(z)) && (|z| > 1 ==> ValueOf(z) >= 10)
  {
    var n := |z| - 1;
    assert z == z[..n] + [z[n]];
    if n > 0 {
      OnlyDigits(z[..n]);
      PositiveStart(z[..n]);
    } else {
      assert z[..0] == [];
    }
  }

  lemma {:induction false} PositiveStart(z: Text)
    requires Decimal(z) && z[0] != '0' as int
    ensures ValueOf(z) > 0
  {
    var n := |z| - 1;
    if n > 0 {
      PositiveStart(z[..n]);
    } else {
      assert z[..0] == [];
    }
  }

  lemma NumberIff(n: int, z: Text)
    ensures WritesNumber(n, z) <==> z == PrintInt(n)
  {
    if n < 0 {
      DigitsWrite(-n);
      assert PrintInt(n)[1..] == Digits(-n);
      if WritesNumber(n, z) {
        OnlyDigits(z[1..]);
        assert z == [z[0]] + z[1..];
      }
    } else {
      DigitsWrite(n);
      if WritesNumber(n, z) {
        OnlyDigits(z);
      }
    }
  }

  // --- strings ---

  predicate LowerHex(u: Unit, d: int) {
    (0 <= d < 10 && u == '0' as int + d) || (10 <= d < 16 && u == 'a' as int + (d - 10))
  }

  ghost predicate HexEscape(u: Unit, z: Text) {
    && |z| == 6 && z[0] == '\\' as int && z[1] == 'u' as int
    && exists a, b, c, d ::
         LowerHex(z[2], a) && LowerHex(z[3], b) && LowerHex(z[4], c) && LowerHex(z[5], d)
         && u == 4096 * a + 256 * b + 16 * c + d
  }

  /** A backslash and a letter where there is one, four lower-case hex digits for other control units and lone surrogates, the unit itself otherwise. */
  ghost predicate WritesUnit(u: Unit, z: Text) {
    if u == '"' as int then z == Spelled("\\\"")
    else if u == '\\' as int then z == Spelled("\\\\")
    else if u == 8 then z == Spelled("\\b")
    else if u == 9 then z == Spelled("\\t")
    else if u == 10 then z == Spelled("\\n")
    else if u == 12 then z == Spelled("\\f")
    else if u == 13 then z == Spelled("\\r")
    else if u < 32 || 0xD800 <= u < 0xE000 then HexEscape(u, z)
    else z == [u]
  }

  predicate PairInFront(s: Text) {
    |s| > 1 && 0xD800 <= s[0] < 0xDC00 && 0xDC00 <= s[1] < 0xE000
  }

  ghost predicate WritesUnits(s: Text, z: Text) {
    if s == [] then z == []
    else if PairInFront(s) then |z| >= 2 && z[..2] == s[..2] && WritesUnits(s[2..], z[2..])
    else exists n :: 0 <= n <= |z| && WritesUnit(s[0], z[..n]) && WritesUnits(s[1..], z[n..])
  }

  ghost predicate WritesString(s: Text, z: Text) {
    |z| >= 2 && z[0] == '"' as int && z[|z| - 1] == '"' as int && WritesUnits(s, z[1..|z| - 1])
  }

  lemma HexEscapeIff(u: Unit, z: Text)
    ensures HexEscape(u, z) <==> z == [BACKSLASH, LETTER_U] + Hex4(u)
  {
    var a, b, c, d := u / 16 / 16 / 16, u / 16 / 16 % 16, u / 16 % 16, u % 16;
    Hex4Value(u);
    if z == [BACKSLASH, LETTER_U] + Hex4(u) {
      assert LowerHex(z[2], a) && LowerHex(z[3], b) && LowerHex(z[4], c) && LowerHex(z[5], d);
    }
    if HexEscape(u, z) {
      var e, f, g, h :| LowerHex(z[2], e) && LowerHex(z[3], f) && LowerHex(z[4], g) && LowerHex(z[5], h)
                        && u == 4096 * e + 256 * f + 16 * g + h;
      SameHex(u, e, f, g, h);
      assert z == [z[0], z[1]] + [z[2], z[3], z[4], z[5]];
    }
  }

  lemma SameHex(u: Unit, e: int, f: int, g: int, h: int)
    requires 0 <= e < 16 && 0 <= f < 16 && 0 <= g < 16 && 0 <= h < 16 && u == 4096 * e + 256 * f + 16 * g + h
    ensures e == u / 16 / 16 / 16 && f == u / 16 / 16 % 16 && g == u / 16 % 16 && h == u % 16
  {
    assert u / 16 == 256 * e + 16 * f + g;
    assert u / 16 / 16 == 16 * e + f;
  }

  lemma UnitIff(u: Unit, z: Text)
    ensures WritesUnit(u, z) <==> z == EscapeUnit(u)
  {
    HexEscapeIff(u, z);
  }

  lemma {:induction false} UnitsIff(s: Text, z: Text)
    ensures WritesUnits(s, z) <==> z == Escape(s)
    decreases |s|
  {
    if s != [] {
      if PairInFront(s) {
        PairIff(s, z);
      } else {
        FirstIff(s, z);
      }
    }
  }

  lemma {:induction false} PairIff(s: Text, z: Text)
    requires PairInFront(s)
    ensures WritesUnits(s, z) <==> z == Escape(s)
    decreases |s|, 0
  {
    assert [s[0], s[1]] == s[..2];
    if |z| >= 2 {
      UnitsIff(s[2..], z[2..]);
      assert z == z[..2] + z[2..];
    }
    assert Escape(s)[..2] == s[..2] && Escape(s)[2..] == Escape(s[2..]);
  }

  lemma {:induction false} FirstIff(s: Text, z: Text)
    requires s != [] && !PairInFront(s)
    ensures WritesUnits(s, z) <==> z == Escape(s)
    decreases |s|, 0
  {
    var first, rest := EscapeUnit(s[0]), Escape(s[1..]);
    if WritesUnits(s, z) {
      var n :| 0 <= n <= |z| && WritesUnit(s[0], z[..n]) && WritesUnits(s[1..], z[n..]);
      UnitIff(s[0], z[..n]);
      UnitsIff(s[1..], z[n..]);
      assert z == z[..n] + z[n..];
    }
    if z == Escape(s) {
      var n := |first|;
      assert z[..n] == first && z[n..] == rest;
      UnitIff(s[0], z[..n]);
      UnitsIff(s[1..], z[n..]);
    }
  }

  lemma StringIff(s: Text, z: Text)
    ensures WritesString(s, z) <==> z == Quote(s)
  {
    if |z| >= 2 {
      UnitsIff(s, z[1..|z| - 1]);
      if WritesString(s, z) {
        assert z == [z[0]] + z[1..|z| - 1] + [z[|z| - 1]];
      }
    }
    assert Quote(s)[1..|Quote(s)| - 1] == Escape(s);
  }

  /** Text without a quote, a backslash, a control unit or a surrogate is written as it is. */
  lemma {:induction false} PlainText(s: Text)
    requires forall i :: 0 <= i < |s| ==> s[i] != '"' as int && s[i] != '\\' as int && s[i] >= 32 && !(0xD800 <= s[i] < 0xE000)
    ensures Escape(s) == s
  {
    if s != [] {
      PlainText(s[1..]);
      assert s == [s[0]] + s[1..];
    }
  }

  // --- values ---

  /** Some code unit decides, or the shorter text comes first. */
  ghost predicate Precedes(a: Text, b: Text) {
    exists n :: 0 <= n <= |a| && n < |b| && a[..n] == b[..n] && (n == |a| || a[n] < b[n])
  }

  lemma {:induction false} PrecedesIff(a: Text, b: Text)
    ensures Precedes(a, b) <==> Before(a, b)
    decreases |a|
  {
    if b != [] && a != [] && a[0] == b[0] {
      PrecedesIff(a[1..], b[1..]);
      PrecedesTails(a, b);
    } else if b != [] {
      assert a[..0] == b[..0];
      forall n | 0 < n <= |a| && n < |b| ensures a[..n] != b[..n] {
        assert a[..n][0] == a[0] && b[..n][0] == b[0];
      }
    }
  }

  lemma PrecedesTails(a: Text, b: Text)
    requires a != [] && b != [] && a[0] == b[0]
    ensures Precedes(a, b) <==> Precedes(a[1..], b[1..])
  {
    if Precedes(a[1..], b[1..]) {
      var n :| 0 <= n <= |a| - 1 && n < |b| - 1 && a[1..][..n] == b[1..][..n] && (n == |a| - 1 || a[1..][n] < b[1..][n]);
      assert a[..n + 1] == [a[0]] + a[1..][..n] && b[..n + 1] == [b[0]] + b[1..][..n];
      assert n + 1 == |a| || a[n + 1] < b[n + 1];
    }
    if Precedes(a, b) {
      var n :| 0 <= n <= |a| && n < |b| && a[..n] == b[..n] && (n == |a| || a[n] < b[n]);
      assert n > 0;
      assert a[1..][..n - 1] == a[..n][1..] && b[1..][..n - 1] == b[..n][1..];
      assert n - 1 == |a| - 1 || a[1..][n - 1] < b[1..][n - 1];
    }
  }

  /** The parts one after another with commas between them. */
  function Separated(parts: seq<Text>): Text {
    if parts == [] then []
    else if |parts| == 1 then parts[0]
    else Separated(parts[..|parts| - 1]) + [',' as int] + parts[|parts| - 1]
  }

  ghost predicate WritesEntry(m: Member, z: Text)
    decreases m
  {
    exists n :: 0 <= n < |z| && WritesString(m.key, z[..n]) && z[n] == ':' as int && Writes(m.value, z[n + 1..])
  }

  /** The members of an object that are written, in the order they are written. */
  ghost predicate Chosen(members: seq<Member>, chosen: seq<Member>) {
    && (forall m :: m in chosen <==> m in members && m.value != Undefined)
    && (forall i, j :: 0 <= i < j < |chosen| ==> Precedes(chosen[i].key, chosen[j].key))
  }

  ghost predicate MembersWritten(members: seq<Member>, chosen: seq<Member>, parts: seq<Text>)
    requires |parts| == |chosen|
    decreases members
  {
    forall i :: 0 <= i < |chosen| ==> chosen[i] in members && WritesEntry(chosen[i], parts[i])
  }

  /** What is undefined in an array is written as null. */
  ghost predicate ItemWritten(item: Tree, z: Text)
    decreases item, 1
  {
    if item == Undefined then z == Spelled("null") else Writes(item, z)
  }

  /** z is what t is written as. */
  ghost predicate Writes(t: Tree, z: Text)
    decreases t, 0
  {
    match t
    case Undefined => false
    case Null => z == Spelled("null")
    case Bool(b) => z == if b then Spelled("true") else Spelled("false")
    case Num(n) => WritesNumber(n, z)
    case Str(s) => WritesString(s, z)
    case Arr(items) =>
      exists parts :: z == Spelled("[") + Separated(parts) + Spelled("]") && |parts| == |items|
        && forall i :: 0 <= i < |items| ==> ItemWritten(items[i], parts[i])
    case Obj(members) =>
      exists chosen: seq<Member>, parts :: z == Spelled("{") + Separated(parts) + Spelled("}") && |parts| == |chosen|
        && Chosen(members, chosen) && MembersWritten(members, chosen, parts)
  }

  // --- the printer writes exactly that ---

  lemma {:induction false} JoinLast(parts: seq<Text>, last: Text)
    requires parts != []
    ensures Join(parts + [last]) == Join(parts) + [COMMA] + last
  {
    if |parts| > 1 {
      assert (parts + [last])[1..] == parts[1..] + [last];
      JoinLast(parts[1..], last);
    } else {
      assert (parts + [last])[1..] == [last];
    }
  }

  lemma {:induction false} SeparatedIs(parts: seq<Text>)
    ensures Separated(parts) == Join(parts)
  {
    if |parts| > 1 {
      var n := |parts| - 1;
      SeparatedIs(parts[..n]);
      JoinLast(parts[..n], parts[n]);
      assert parts == parts[..n] + [parts[n]];
    }
  }

  lemma Enclosed(parts: seq<Text>)
    ensures Spelled("[") + Separated(parts) + Spelled("]") == Bracket(parts)
    ensures Spelled("{") + Separated(parts) + Spelled("}") == Brace(parts)
  {
    SeparatedIs(parts);
    Associate([OPEN_BRACKET], Join(parts), [CLOSE_BRACKET]);
    Associate([OPEN_BRACE], Join(parts), [CLOSE_BRACE]);
    assert Spelled("[") == [OPEN_BRACKET] && Spelled("]") == [CLOSE_BRACKET];
    assert Spelled("{") == [OPEN_BRACE] && Spelled("}") == [CLOSE_BRACE];
  }

  lemma {:induction false} ItemAt(items: seq<Tree>, i: nat)
    requires i < |items|
    ensures PrintItems(items)[i] == OrNull(Print(items[i]))
  {
    if i > 0 {
      ItemAt(items[1..], i - 1);
    }
  }

  function EntriesOf(chosen: seq<Member>): (parts: seq<Text>)
    ensures |parts| == |chosen| && forall i :: 0 <= i < |chosen| ==> parts[i] == EntryOf(chosen[i])
  {
    seq(|chosen|, i requires 0 <= i < |chosen| => EntryOf(chosen[i]))
  }

  function EntryOf(m: Member): Text {
    Entry(m.key, OrNull(Print(m.value)))
  }

  /** A member that the object defines is found under its key. */
  lemma MemberFound(members: seq<Member>, m: Member)
    requires Distinct(KeysOf(members)) && m in members
    ensures HasKey(members, m.key) && Find(members, m.key) == m.value
  {
    var i :| 0 <= i < |members| && members[i] == m;
    FindUnique(members, i);
  }

  lemma {:induction false} PrintInOrder(members: seq<Member>, chosen: seq<Member>)
    requires Distinct(KeysOf(members)) && forall m :: m in chosen ==> m in members && m.value != Undefined
    ensures PrintMembers(members, KeysOf(chosen)) == EntriesOf(chosen)
    decreases |chosen|
  {
    if chosen != [] {
      var first, rest := chosen[0], chosen[1..];
      assert chosen == [first] + rest;
      assert first in chosen && forall m :: m in rest ==> m in chosen;
      PrintInOrder(members, rest);
      PrintFirst(members, first, KeysOf(rest));
      InFront(first, rest);
    }
  }

  lemma InFront(first: Member, rest: seq<Member>)
    ensures KeysOf([first] + rest) == [first.key] + KeysOf(rest)
    ensures EntriesOf([first] + rest) == [EntryOf(first)] + EntriesOf(rest)
  {
  }

  lemma PrintFirst(members: seq<Member>, m: Member, keys: seq<Text>)
    requires Distinct(KeysOf(members)) && m in members && m.value != Undefined
    ensures PrintMembers(members, [m.key] + keys) == [EntryOf(m)] + PrintMembers(members, keys)
  {
    MemberFound(members, m);
    PrintHead(m.value);
    assert ([m.key] + keys)[1..] == keys;
  }

  lemma KeysChosen(members: seq<Member>, chosen: seq<Member>, k: Text)
    requires Distinct(KeysOf(members)) && forall m :: m in chosen <==> m in members && m.value != Undefined
    ensures k in KeysOf(chosen) <==> HasKey(members, k) && Find(members, k) != Undefined
  {
    if k in KeysOf(chosen) {
      var i :| 0 <= i < |chosen| && KeysOf(chosen)[i] == k;
      assert chosen[i] in chosen;
      MemberFound(members, chosen[i]);
    }
    if HasKey(members, k) && Find(members, k) != Undefined {
      assert Member(k, Find(members, k)) in members;
      var i :| 0 <= i < |chosen| && chosen[i] == Member(k, Find(members, k));
      assert KeysOf(chosen)[i] == k;
    }
  }

  lemma ChosenPrints(members: seq<Member>, chosen: seq<Member>)
    requires Distinct(KeysOf(members)) && Chosen(members, chosen)
    ensures PrintMembers(members, SortedKeys(members)) == EntriesOf(chosen)
  {
    var kept := Kept(members, SortedKeys(members));
    KeptSorted(members);
    forall i, j | 0 <= i < j < |chosen| ensures Before(KeysOf(chosen)[i], KeysOf(chosen)[j]) {
      PrecedesIff(chosen[i].key, chosen[j].key);
    }
    forall k ensures k in kept <==> k in KeysOf(chosen) {
      KeysChosen(members, chosen, k);
      NormMembersAt(members, k);
    }
    IncreasingUnique(kept, KeysOf(chosen));
    PrintKept(members, SortedKeys(members));
    PrintInOrder(members, chosen);
  }

  lemma ChosenExists(members: seq<Member>) returns (chosen: seq<Member>)
    requires Distinct(KeysOf(members))
    ensures Chosen(members, chosen)
  {
    var kept := Kept(members, SortedKeys(members));
    KeptSorted(members);
    forall k ensures k in kept <==> HasKey(members, k) && Find(members, k) != Undefined {
      NormMembersAt(members, k);
    }
    assert forall i :: 0 <= i < |kept| ==> kept[i] in kept;
    chosen := seq(|kept|, i requires 0 <= i < |kept| => Member(kept[i], Find(members, kept[i])));
    forall m ensures m in chosen <==> m in members && m.value != Undefined {
      if m in members && m.value != Undefined {
        MemberFound(members, m);
        var i :| 0 <= i < |kept| && kept[i] == m.key;
        assert chosen[i] == m;
      }
    }
    forall i, j | 0 <= i < j < |chosen| ensures Precedes(chosen[i].key, chosen[j].key) {
      PrecedesIff(kept[i], kept[j]);
    }
  }

  /** A value is written as one text and no other, the printer's. */
  lemma {:induction false} WritesIff(t: Tree, z: Text)
    requires WellFormed(t)
    ensures Writes(t, z) <==> Print(t) == Some(z)
    decreases t, 3
  {
    WordsSpelled();
    match t
    case Num(n) => NumberIff(n, z);
    case Str(s) => StringIff(s, z);
    case Arr(items) => ArrayIff(items, z);
    case Obj(members) => ObjectIff(members, z);
    case _ =>
  }

  lemma {:induction false} ItemIff(item: Tree, z: Text)
    requires WellFormed(item)
    ensures ItemWritten(item, z) <==> z == OrNull(Print(item))
    decreases item, 4
  {
    WordsSpelled();
    WritesIff(item, z);
    if item != Undefined { PrintHead(item); }
  }

  lemma {:induction false} PartsIff(items: seq<Tree>, parts: seq<Text>)
    requires WellFormed(Arr(items)) && |parts| == |items|
    ensures (forall i :: 0 <= i < |items| ==> ItemWritten(items[i], parts[i])) <==> parts == PrintItems(items)
    decreases Arr(items), 0
  {
    forall i | 0 <= i < |items| ensures ItemWritten(items[i], parts[i]) <==> parts[i] == PrintItems(items)[i] {
      ItemAt(items, i);
      ItemIff(items[i], parts[i]);
    }
  }

  lemma {:induction false} ArrayIff(items: seq<Tree>, z: Text)
    requires WellFormed(Arr(items))
    ensures Writes(Arr(items), z) <==> z == Bracket(PrintItems(items))
    decreases Arr(items), 1
  {
    var printed := PrintItems(items);
    PartsIff(items, printed);
    Enclosed(printed);
    if Writes(Arr(items), z) {
      var parts :| z == Spelled("[") + Separated(parts) + Spelled("]") && |parts| == |items|
        && forall i :: 0 <= i < |items| ==> ItemWritten(items[i], parts[i]);
      PartsIff(items, parts);
    }
  }

  lemma EntrySplit(m: Member, z: Text, n: nat)
    requires n < |z| && z[..n] == Quote(m.key) && z[n] == COLON && z[n + 1..] == OrNull(Print(m.value))
    ensures z == EntryOf(m)
  {
    assert z == z[..n] + ([z[n]] + z[n + 1..]);
  }

  lemma {:induction false} EntryRead(m: Member, z: Text)
    requires WellFormed(m.value) && m.value != Undefined && WritesEntry(m, z)
    ensures z == EntryOf(m)
    decreases m, 4
  {
    var n :| 0 <= n < |z| && WritesString(m.key, z[..n]) && z[n] == ':' as int && Writes(m.value, z[n + 1..]);
    StringIff(m.key, z[..n]);
    WritesIff(m.value, z[n + 1..]);
    EntrySplit(m, z, n);
  }

  lemma EntryParts(key: Text, value: Text)
    ensures var z, n := Entry(key, value), |Quote(key)|;
            n < |z| && z[..n] == Quote(key) && z[n] == COLON && z[n + 1..] == value
  {
  }

  lemma {:induction false} EntryIff(m: Member, z: Text)
    requires WellFormed(m.value) && m.value != Undefined
    ensures WritesEntry(m, z) <==> z == EntryOf(m)
    decreases m, 5
  {
    if WritesEntry(m, z) {
      EntryRead(m, z);
    }
    if z == EntryOf(m) {
      var n := |Quote(m.key)|;
      PrintHead(m.value);
      EntryParts(m.key, Print(m.value).value);
      StringIff(m.key, z[..n]);
      WritesIff(m.value, z[n + 1..]);
    }
  }

  lemma {:induction false} MemberIff(members: seq<Member>, m: Member, z: Text)
    requires WellFormed(Obj(members)) && m in members && m.value != Undefined
    ensures WritesEntry(m, z) <==> z == EntryOf(m)
    decreases Obj(members), 0, 0
  {
    var k :| 0 <= k < |members| && members[k] == m;
    EntryIff(members[k], z);
  }

  lemma {:induction false} EntriesIff(members: seq<Member>, chosen: seq<Member>, parts: seq<Text>)
    requires WellFormed(Obj(members)) && Chosen(members, chosen) && |parts| == |chosen|
    ensures MembersWritten(members, chosen, parts) <==> parts == EntriesOf(chosen)
    decreases Obj(members), 0, 1
  {
    forall i | 0 <= i < |chosen| ensures chosen[i] in members && (WritesEntry(chosen[i], parts[i]) <==> parts[i] == EntriesOf(chosen)[i]) {
      assert chosen[i] in chosen;
      MemberIff(members, chosen[i], parts[i]);
    }
  }

  lemma {:induction false} ObjectRead(members: seq<Member>, z: Text)
    requires WellFormed(Obj(members)) && Writes(Obj(members), z)
    ensures z == Brace(PrintMembers(members, SortedKeys(members)))
    decreases Obj(members), 1
  {
    var chosen: seq<Member>, parts :| z == Spelled("{") + Separated(parts) + Spelled("}") && |parts| == |chosen|
      && Chosen(members, chosen) && MembersWritten(members, chosen, parts);
    EntriesIff(members, chosen, parts);
    ChosenPrints(members, chosen);
    Enclosed(parts);
  }

  lemma {:induction false} ObjectWritten(members: seq<Member>)
    requires WellFormed(Obj(members))
    ensures Writes(Obj(members), Brace(PrintMembers(members, SortedKeys(members))))
    decreases Obj(members), 1
  {
    var chosen := ChosenExists(members);
    var parts := EntriesOf(chosen);
    EntriesIff(members, chosen, parts);
    ChosenPrints(members, chosen);
    Enclosed(parts);
  }

  lemma {:induction false} ObjectIff(members: seq<Member>, z: Text)
    requires WellFormed(Obj(members))
    ensures Writes(Obj(members), z) <==> z == Brace(PrintMembers(members, SortedKeys(members)))
    decreases Obj(members), 2
  {
    ObjectWritten(members);
    if Writes(Obj(members), z) {
      ObjectRead(members, z);
    }
  }

  /** The whole document: the one text the value is written as, or the word for an undefined one. */
  lemma CanonicalIff(t: Tree, z: Text)
    requires WellFormed(t)
    ensures Canonical(t) == z <==> if t == Undefined then z == Spelled("undefined") else Writes(t, z)
  {
    if t != Undefined {
      PrintHead(t);
      WritesIff(t, z);
    } else {
      assert UNDEFINED_TEXT == Spelled("undefined");
    }
  }
}
