/**
 * Canonical JSON of a finite value: the printer, the normal form that the text stands for,
 * and a reader that recovers the normal form from the text (sections 4 to 7 of RFC 8259).
 */
module CanonicalJson {
  import opened Wrappers
  import opened Sequences
  import opened CanonicalText

  /** Integers that a double holds exactly. */
  type SafeInt = n: int | -0x1F_FFFF_FFFF_FFFF <= n <= 0x1F_FFFF_FFFF_FFFF

  /** A value to print; `Undefined` also stands for symbols and functions. */
  datatype Tree =
    | Undefined
    | Null
    | Bool(b: bool)
    | Num(n: SafeInt)
    | Str(s: Text)
    | Arr(items: seq<Tree>)
    | Obj(members: seq<Member>)

  /** A property; the sequence of members keeps insertion order. */
  datatype Member = Member(key: Text, value: Tree)

  /** Values up to dropped properties, filled-in array items and key order. */
  datatype Json =
    | JNull
    | JBool(b: bool)
    | JNum(n: int)
    | JStr(s: Text)
    | JArr(items: seq<Json>)
    | JObj(fields: map<Text, Json>)

  function KeysOf(members: seq<Member>): (keys: seq<Text>)
    ensures |keys| == |members| && forall i :: 0 <= i < |members| ==> keys[i] == members[i].key
  {
    seq(|members|, i requires 0 <= i < |members| => members[i].key)
  }

  ghost predicate WellFormed(t: Tree) {
    match t
    case Arr(items) => forall i :: 0 <= i < |items| ==> WellFormed(items[i])
    case Obj(members) => WellFormedMembers(members)
    case _ => true
  }

  ghost predicate WellFormedMembers(members: seq<Member>) {
    Distinct(KeysOf(members)) && forall i :: 0 <= i < |members| ==> WellFormed(members[i].value)
  }

  predicate HasKey(members: seq<Member>, key: Text) {
    exists i :: 0 <= i < |members| && members[i].key == key
  }

  function Find(members: seq<Member>, key: Text): (t: Tree)
    requires HasKey(members, key)
    ensures exists i :: 0 <= i < |members| && members[i] == Member(key, t)
  {
    var last := |members| - 1;
    if members[last].key == key then
      assert members[last] == Member(key, members[last].value);
      members[last].value
    else
      assert HasKey(members[..last], key) by {
        var i :| 0 <= i < |members| && members[i].key == key;
        assert members[..last][i].key == key;
      }
      Find(members[..last], key)
  }

  lemma FindUnique(members: seq<Member>, i: nat)
    requires i < |members| && Distinct(KeysOf(members))
    ensures HasKey(members, members[i].key) && Find(members, members[i].key) == members[i].value
  {
    assert HasKey(members, members[i].key);
    var t := Find(members, members[i].key);
    var j :| 0 <= j < |members| && members[j] == Member(members[i].key, t);
    var keys := KeysOf(members);
    assert keys[i] == keys[j];
    assert i == j;
  }

  // --- the printer ---

  /** `parts.join(",")` */
  function Join(parts: seq<Text>): Text {
    if parts == [] then []
    else if |parts| == 1 then parts[0]
    else parts[0] + ([COMMA] + Join(parts[1..]))
  }

  function Bracket(parts: seq<Text>): Text {
    [OPEN_BRACKET] + (Join(parts) + [CLOSE_BRACKET])
  }

  function Brace(parts: seq<Text>): Text {
    [OPEN_BRACE] + (Join(parts) + [CLOSE_BRACE])
  }

  function Entry(key: Text, value: Text): Text {
    Quote(key) + ([COLON] + value)
  }

  /** The serialization of a value; None stands for `undefined`. */
  function Print(t: Tree): Option<Text>
    decreases t, 0
  {
    match t
    case Undefined => None
    case Null => Some(NULL_TEXT)
    case Bool(b) => Some(if b then TRUE_TEXT else FALSE_TEXT)
    case Num(n) => Some(PrintInt(n))
    case Str(s) => Some(Quote(s))
    case Arr(items) => Some(Bracket(PrintItems(items)))
    case Obj(members) => Some(Brace(PrintMembers(members, SortedKeys(members))))
  }

  function SortedKeys(members: seq<Member>): (keys: seq<Text>) {
    SortKeys(KeysOf(members))
  }

  function OrNull(printed: Option<Text>): Text {
    if printed.Some? then printed.value else NULL_TEXT
  }

  function PrintItems(items: seq<Tree>): (parts: seq<Text>)
    ensures |parts| == |items|
    decreases items, 0
  {
    if items == [] then [] else [OrNull(Print(items[0]))] + PrintItems(items[1..])
  }

  function PrintMembers(members: seq<Member>, keys: seq<Text>): seq<Text>
    decreases members, |keys|
  {
    if keys == [] then []
    else if !HasKey(members, keys[0]) then PrintMembers(members, keys[1..])
    else
      var printed := Print(Find(members, keys[0]));
      (if printed.Some? then [Entry(keys[0], printed.value)] else []) + PrintMembers(members, keys[1..])
  }

  /** The whole document: a top-level `undefined` prints as that word. */
  function Canonical(t: Tree): Text {
    if Print(t).Some? then Print(t).value else UNDEFINED_TEXT
  }

  // --- the normal form ---

  function Norm(t: Tree): (r: Option<Json>)
    ensures r.Some? <==> t != Undefined
    decreases t, 0
  {
    match t
    case Undefined => None
    case Null => Some(JNull)
    case Bool(b) => Some(JBool(b))
    case Num(n) => Some(JNum(n))
    case Str(s) => Some(JStr(s))
    case Arr(items) => Some(JArr(NormItems(items)))
    case Obj(members) => Some(JObj(NormMembers(members)))
  }

  function NormItems(items: seq<Tree>): (r: seq<Json>)
    ensures |r| == |items|
    decreases items, 0
  {
    if items == [] then []
    else [if items[0] == Undefined then JNull else Norm(items[0]).value] + NormItems(items[1..])
  }

  function NormMembers(members: seq<Member>): map<Text, Json>
    decreases members, 0
  {
    if members == [] then map[]
    else
      var last := members[|members| - 1];
      var rest := NormMembers(members[..|members| - 1]);
      if last.value == Undefined then rest else rest[last.key := Norm(last.value).value]
  }

  lemma {:induction false} NormMembersAt(members: seq<Member>, key: Text)
    requires Distinct(KeysOf(members))
    ensures key in NormMembers(members) <==> HasKey(members, key) && Find(members, key) != Undefined
    ensures key in NormMembers(members) ==> Norm(Find(members, key)) == Some(NormMembers(members)[key])
  {
    if members != [] {
      var n := |members| - 1;
      var front := members[..n];
      assert forall i :: 0 <= i < n ==> KeysOf(front)[i] == KeysOf(members)[i];
      NormMembersAt(front, key);
      if HasKey(members, key) && key != members[n].key {
        var i :| 0 <= i < |members| && members[i].key == key;
        assert front[i].key == key;
        FindUnique(front, i);
        FindUnique(members, i);
      } else if key == members[n].key {
        FindUnique(members, n);
        forall i | 0 <= i < n ensures front[i].key != key {
          assert KeysOf(members)[i] != KeysOf(members)[n];
        }
      } else {
        forall i | 0 <= i < n ensures front[i].key != key {
          assert members[i].key != key;
        }
      }
    }
  }

  // --- the reader ---

  function ReadLiteral(z: Text, literal: Text, value: Json): (r: Option<(Json, Text)>)
    requires literal != []
    ensures r.Some? ==> |r.value.1| < |z|
  {
    if literal <= z then Some((value, z[|literal|..])) else None
  }

  function ReadValue(z: Text): (r: Option<(Json, Text)>)
    ensures r.Some? ==> |r.value.1| < |z|
    decreases |z|, 0
  {
    if z == [] then None
    else if z[0] == 'n' as int then ReadLiteral(z, Spelled("null"), JNull)
    else if z[0] == 't' as int then ReadLiteral(z, Spelled("true"), JBool(true))
    else if z[0] == 'f' as int then ReadLiteral(z, Spelled("false"), JBool(false))
    else if z[0] == QUOTE then
      var s := ReadString(z[1..]);
      if s.Some? then Some((JStr(s.value.0), s.value.1)) else None
    else if z[0] == OPEN_BRACKET then
      if |z| > 1 && z[1] == CLOSE_BRACKET then Some((JArr([]), z[2..]))
      else
        var items := ReadItems(z[1..]);
        if items.Some? then Some((JArr(items.value.0), items.value.1)) else None
    else if z[0] == OPEN_BRACE then
      if |z| > 1 && z[1] == CLOSE_BRACE then Some((JObj(map[]), z[2..]))
      else
        var fields := ReadFields(z[1..]);
        if fields.Some? then Some((JObj(fields.value.0), fields.value.1)) else None
    else
      var n := ReadInt(z);
      if n.Some? then Some((JNum(n.value.0), n.value.1)) else None
  }

  /** One or more items, then the closing bracket. */
  function ReadItems(z: Text): (r: Option<(seq<Json>, Text)>)
    ensures r.Some? ==> |r.value.1| < |z|
    decreases |z|, 1
  {
    var first := ReadValue(z);
    if first.None? || first.value.1 == [] then None
    else
      var rest := first.value.1;
      if rest[0] == CLOSE_BRACKET then Some(([first.value.0], rest[1..]))
      else if rest[0] != COMMA then None
      else
        var more := ReadItems(rest[1..]);
        if more.Some? then Some(([first.value.0] + more.value.0, more.value.1)) else None
  }

  /** One or more `"key":value` fields, then the closing brace. */
  function ReadFields(z: Text): (r: Option<(map<Text, Json>, Text)>)
    ensures r.Some? ==> |r.value.1| < |z|
    decreases |z|, 1
  {
    if z == [] || z[0] != QUOTE then None
    else
      var key := ReadString(z[1..]);
      if key.None? || key.value.1 == [] || key.value.1[0] != COLON then None
      else
        var value := ReadValue(key.value.1[1..]);
        if value.None? || value.value.1 == [] then None
        else
          var rest := value.value.1;
          if rest[0] == CLOSE_BRACE then Some((map[key.value.0 := value.value.0], rest[1..]))
          else if rest[0] != COMMA then None
          else
            var more := ReadFields(rest[1..]);
            if more.Some? then Some((more.value.0[key.value.0 := value.value.0], more.value.1)) else None
  }

  // --- reading back what was printed ---

  lemma PrintHead(t: Tree)
    requires t != Undefined
    ensures Print(t).Some? && Print(t).value != []
    ensures Print(t).value[0] != CLOSE_BRACKET && Print(t).value[0] != CLOSE_BRACE
  {
    if t.Num? && t.n >= 0 {
      assert IsDigit(Digits(t.n)[0]);
    }
  }

  lemma WordsSpelled()
    ensures NULL_TEXT == Spelled("null") && TRUE_TEXT == Spelled("true") && FALSE_TEXT == Spelled("false")
  {
  }

  lemma ReadPrintedLiteral(literal: Text, value: Json, rest: Text)
    requires (literal == NULL_TEXT && value == JNull) || (literal == TRUE_TEXT && value == JBool(true)) || (literal == FALSE_TEXT && value == JBool(false))
    ensures ReadValue(literal + rest) == Some((value, rest))
  {
    WordsSpelled();
    assert (literal + rest)[|literal|..] == rest;
  }

  lemma ReadPrintedNumber(n: SafeInt, rest: Text)
    requires EndsNumber(rest)
    ensures ReadValue(PrintInt(n) + rest) == Some((JNum(n), rest))
  {
    ReadPrintedInt(n, rest);
    var z := PrintInt(n) + rest;
    assert z[0] == MINUS || IsDigit(z[0]);
  }

  lemma QuoteThen(s: Text, rest: Text)
    ensures (Quote(s) + rest)[0] == QUOTE && ReadString((Quote(s) + rest)[1..]) == Some((s, rest))
  {
    ReadQuoted(s, rest);
    assert (Quote(s) + rest)[1..] == Quoted(s, rest);
  }

  lemma ReadPrintedString(s: Text, rest: Text)
    ensures ReadValue(Quote(s) + rest) == Some((JStr(s), rest))
  {
    QuoteThen(s, rest);
  }

  lemma Enclose(open: Unit, inner: Text, close: Unit, rest: Text)
    ensures ([open] + (inner + [close])) + rest == [open] + (inner + ([close] + rest))
    ensures ([open] + (inner + ([close] + rest)))[1..] == inner + ([close] + rest)
    ensures inner == [] ==> ([open] + (inner + ([close] + rest)))[2..] == rest
  {
  }

  lemma {:induction false} ReadPrinted(t: Tree, rest: Text)
    requires WellFormed(t) && t != Undefined && EndsNumber(rest)
    ensures Print(t).Some? && ReadValue(Print(t).value + rest) == Some((Norm(t).value, rest))
    decreases t, 0
  {
    match t
    case Null => ReadPrintedLiteral(NULL_TEXT, JNull, rest);
    case Bool(b) => ReadPrintedLiteral(if b then TRUE_TEXT else FALSE_TEXT, JBool(b), rest);
    case Num(n) => ReadPrintedNumber(n, rest);
    case Str(s) => ReadPrintedString(s, rest);
    case Arr(items) => ReadPrintedArray(items, rest);
    case Obj(members) => ReadPrintedObject(members, rest);
  }

  lemma {:induction false} ReadPrintedArray(items: seq<Tree>, rest: Text)
    requires forall i :: 0 <= i < |items| ==> WellFormed(items[i])
    ensures ReadValue(Bracket(PrintItems(items)) + rest) == Some((JArr(NormItems(items)), rest))
    decreases items, 1
  {
    Enclose(OPEN_BRACKET, Join(PrintItems(items)), CLOSE_BRACKET, rest);
    if items != [] {
      ReadPrintedItems(items, rest);
    }
  }

  lemma ReadLastItem(first: Text, json: Json, rest: Text)
    requires ReadValue(first + ([CLOSE_BRACKET] + rest)) == Some((json, [CLOSE_BRACKET] + rest))
    ensures ReadItems(first + ([CLOSE_BRACKET] + rest)) == Some(([json], rest))
  {
    assert ([CLOSE_BRACKET] + rest)[1..] == rest;
  }

  lemma ReadNextItem(first: Text, json: Json, more: Text, jsons: seq<Json>, rest: Text)
    requires ReadValue(first + ([COMMA] + more)) == Some((json, [COMMA] + more))
    requires ReadItems(more) == Some((jsons, rest))
    ensures ReadItems(first + ([COMMA] + more)) == Some(([json] + jsons, rest))
  {
    assert ([COMMA] + more)[1..] == more;
  }

  lemma JoinNext(first: Text, others: seq<Text>, end: Text)
    requires others != []
    ensures Join([first] + others) + end == first + ([COMMA] + (Join(others) + end))
  {
    assert ([first] + others)[1..] == others;
    Associate(first, [COMMA] + Join(others), end);
    Associate([COMMA], Join(others), end);
  }

  lemma {:induction false} ReadPrintedItems(items: seq<Tree>, rest: Text)
    requires items != [] && forall i :: 0 <= i < |items| ==> WellFormed(items[i])
    ensures var body := Join(PrintItems(items)) + ([CLOSE_BRACKET] + rest);
            body != [] && body[0] != CLOSE_BRACKET && ReadItems(body) == Some((NormItems(items), rest))
    decreases items, 0
  {
    var first := OrNull(Print(items[0]));
    var json := if items[0] == Undefined then JNull else Norm(items[0]).value;
    var others := PrintItems(items[1..]);
    var end := [CLOSE_BRACKET] + rest;
    var more := Join(others) + end;
    var tail := if |items| == 1 then end else [COMMA] + more;
    assert PrintItems(items) == [first] + others;
    if items[0] == Undefined {
      ReadPrintedLiteral(NULL_TEXT, JNull, tail);
    } else {
      PrintHead(items[0]);
      ReadPrinted(items[0], tail);
    }
    assert NormItems(items) == [json] + NormItems(items[1..]);
    if |items| == 1 {
      assert Join([first] + others) == first;
      assert NormItems(items) == [json];
      ReadLastItem(first, json, rest);
    } else {
      ReadPrintedItems(items[1..], rest);
      JoinNext(first, others, end);
      ReadNextItem(first, json, more, NormItems(items[1..]), rest);
    }
  }

  /** The fields that printing `members` in the order of `keys` writes out. */
  function FieldsOf(members: seq<Member>, keys: seq<Text>): map<Text, Json> {
    if keys == [] then map[]
    else
      var rest := FieldsOf(members, keys[1..]);
      if HasKey(members, keys[0]) && Find(members, keys[0]) != Undefined
      then rest[keys[0] := Norm(Find(members, keys[0])).value]
      else rest
  }

  lemma {:induction false} FieldsOfAt(members: seq<Member>, keys: seq<Text>, key: Text)
    ensures key in FieldsOf(members, keys) <==> key in keys && HasKey(members, key) && Find(members, key) != Undefined
    ensures key in FieldsOf(members, keys) ==> Norm(Find(members, key)) == Some(FieldsOf(members, keys)[key])
  {
    if keys != [] {
      FieldsOfAt(members, keys[1..], key);
      assert key in keys <==> key == keys[0] || key in keys[1..];
    }
  }

  lemma FieldsOfSorted(members: seq<Member>)
    requires Distinct(KeysOf(members))
    ensures FieldsOf(members, SortedKeys(members)) == NormMembers(members)
  {
    var keys := SortedKeys(members);
    SortKeysIncreasing(KeysOf(members));
    forall key ensures key in FieldsOf(members, keys) <==> key in NormMembers(members) {
      FieldsOfAt(members, keys, key);
      NormMembersAt(members, key);
      if HasKey(members, key) {
        var i :| 0 <= i < |members| && members[i].key == key;
        assert KeysOf(members)[i] == key;
      }
    }
    forall key | key in NormMembers(members) ensures FieldsOf(members, keys)[key] == NormMembers(members)[key] {
      FieldsOfAt(members, keys, key);
      NormMembersAt(members, key);
    }
  }

  lemma {:induction false} ReadPrintedObject(members: seq<Member>, rest: Text)
    requires WellFormedMembers(members)
    ensures ReadValue(Brace(PrintMembers(members, SortedKeys(members))) + rest) == Some((JObj(NormMembers(members)), rest))
    decreases members, |members| + 1
  {
    var keys := SortedKeys(members);
    SortKeysIncreasing(KeysOf(members));
    FieldsOfSorted(members);
    SortedCount(members);
    Enclose(OPEN_BRACE, Join(PrintMembers(members, keys)), CLOSE_BRACE, rest);
    ReadPrintedFields(members, keys, rest);
  }

  lemma {:induction false} InsertKeyCount(key: Text, keys: seq<Text>)
    ensures |InsertKey(key, keys)| == |keys| + 1
  {
    if keys != [] && !Before(key, keys[0]) {
      InsertKeyCount(key, keys[1..]);
    }
  }

  lemma {:induction false} SortKeysCount(keys: seq<Text>)
    ensures |SortKeys(keys)| == |keys|
  {
    if keys != [] {
      SortKeysCount(keys[1..]);
      InsertKeyCount(keys[0], SortKeys(keys[1..]));
    }
  }

  lemma SortedCount(members: seq<Member>)
    ensures |SortedKeys(members)| == |members|
  {
    SortKeysCount(KeysOf(members));
  }

  lemma EntryThen(key: Text, value: Text, tail: Text)
    ensures Entry(key, value) + tail == Quote(key) + ([COLON] + (value + tail))
    ensures ([COLON] + (value + tail))[1..] == value + tail
  {
    Associate(Quote(key), [COLON] + value, tail);
    Associate([COLON], value, tail);
  }

  lemma ReadLastEntry(key: Text, value: Text, json: Json, rest: Text)
    requires ReadValue(value + ([CLOSE_BRACE] + rest)) == Some((json, [CLOSE_BRACE] + rest))
    ensures ReadFields(Entry(key, value) + ([CLOSE_BRACE] + rest)) == Some((map[key := json], rest))
  {
    EntryThen(key, value, [CLOSE_BRACE] + rest);
    QuoteThen(key, [COLON] + (value + ([CLOSE_BRACE] + rest)));
    assert ([CLOSE_BRACE] + rest)[1..] == rest;
  }

  lemma ReadNextEntry(key: Text, value: Text, json: Json, more: Text, fields: map<Text, Json>, rest: Text)
    requires ReadValue(value + ([COMMA] + more)) == Some((json, [COMMA] + more))
    requires ReadFields(more) == Some((fields, rest))
    ensures ReadFields(Entry(key, value) + ([COMMA] + more)) == Some((fields[key := json], rest))
  {
    EntryThen(key, value, [COMMA] + more);
    QuoteThen(key, [COLON] + (value + ([COMMA] + more)));
    assert ([COMMA] + more)[1..] == more;
  }

  lemma {:induction false} ReadPrintedFields(members: seq<Member>, keys: seq<Text>, rest: Text)
    requires WellFormedMembers(members)
    ensures var parts := PrintMembers(members, keys);
            var body := Join(parts) + ([CLOSE_BRACE] + rest);
            && (parts == [] ==> FieldsOf(members, keys) == map[])
            && (parts != [] ==> body[0] == QUOTE && ReadFields(body) == Some((FieldsOf(members, keys), rest)))
    decreases members, |keys|
  {
    if keys != [] {
      ReadPrintedFields(members, keys[1..], rest);
      if HasKey(members, keys[0]) && Find(members, keys[0]) != Undefined {
        var t := Find(members, keys[0]);
        var i :| 0 <= i < |members| && members[i] == Member(keys[0], t);
        PrintHead(t);
        var first := Entry(keys[0], Print(t).value);
        var others := PrintMembers(members, keys[1..]);
        var end := [CLOSE_BRACE] + rest;
        assert PrintMembers(members, keys) == [first] + others && first[0] == QUOTE;
        if others == [] {
          assert FieldsOf(members, keys) == map[keys[0] := Norm(t).value];
          assert Join([first] + others) == first;
          ReadPrinted(members[i].value, end);
          ReadLastEntry(keys[0], Print(t).value, Norm(t).value, rest);
        } else {
          var more := Join(others) + end;
          ReadPrinted(members[i].value, [COMMA] + more);
          JoinNext(first, others, end);
          ReadNextEntry(keys[0], Print(t).value, Norm(t).value, more, FieldsOf(members, keys[1..]), rest);
        }
      } else {
        assert PrintMembers(members, keys) == PrintMembers(members, keys[1..]);
      }
    }
  }
}
