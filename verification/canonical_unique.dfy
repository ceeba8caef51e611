/**
 * Canonical text is unambiguous: two values print alike exactly when they have the same
 * normal form.
 */
module CanonicalUnique {
  import opened Wrappers
  import opened Sequences
  import opened CanonicalText
  import opened CanonicalJson

  /** Reading the canonical text gives back the normal form and uses up the whole text. */
  lemma RoundTrip(t: Tree)
    requires WellFormed(t) && t != Undefined
    ensures ReadValue(Canonical(t)) == Some((Norm(t).value, []))
  {
    ReadPrinted(t, []);
    assert Print(t).value + [] == Print(t).value;
  }

  lemma UndefinedText()
    ensures ReadValue(UNDEFINED_TEXT) == None
  {
    assert UNDEFINED_TEXT[0] == 117;
  }

  lemma EqualTextEqualNorm(t: Tree, u: Tree)
    requires WellFormed(t) && WellFormed(u) && Canonical(t) == Canonical(u)
    ensures Norm(t) == Norm(u)
  {
    UndefinedText();
    if t != Undefined { RoundTrip(t); }
    if u != Undefined { RoundTrip(u); }
  }

  // --- the text depends on the normal form only ---

  /** The keys that are written out, in the given order. */
  function Kept(members: seq<Member>, keys: seq<Text>): seq<Text> {
    if keys == [] then []
    else (if HasKey(members, keys[0]) && Find(members, keys[0]) != Undefined then [keys[0]] else []) + Kept(members, keys[1..])
  }

  lemma {:induction false} KeptKeys(members: seq<Member>, keys: seq<Text>)
    requires Increasing(keys)
    ensures Increasing(Kept(members, keys))
    ensures forall k :: k in Kept(members, keys) <==> k in keys && HasKey(members, k) && Find(members, k) != Undefined
  {
    if keys != [] {
      KeptKeys(members, keys[1..]);
      assert forall k :: k in keys <==> k == keys[0] || k in keys[1..];
      var rest := Kept(members, keys[1..]);
      forall i | 0 <= i < |rest| ensures Before(keys[0], rest[i]) {
        assert rest[i] in keys[1..];
      }
    }
  }

  lemma {:induction false} PrintKept(members: seq<Member>, keys: seq<Text>)
    ensures PrintMembers(members, keys) == PrintMembers(members, Kept(members, keys))
  {
    if keys != [] {
      PrintKept(members, keys[1..]);
      var rest := Kept(members, keys[1..]);
      if HasKey(members, keys[0]) && Find(members, keys[0]) != Undefined {
        assert Kept(members, keys)[1..] == rest;
      } else {
        assert Kept(members, keys) == rest;
        assert PrintMembers(members, keys) == PrintMembers(members, keys[1..]);
      }
    }
  }

  lemma {:induction false} EqualNormEqualText(t: Tree, u: Tree)
    requires WellFormed(t) && WellFormed(u) && Norm(t) == Norm(u)
    ensures Print(t) == Print(u)
    decreases t, 0
  {
    match t
    case Arr(items) =>
      assert u.Arr? && NormItems(items) == NormItems(u.items);
      EqualItems(items, u.items);
    case Obj(members) =>
      assert u.Obj? && NormMembers(members) == NormMembers(u.members);
      EqualMembers(members, u.members);
    case _ =>
  }

  lemma {:induction false} EqualItems(a: seq<Tree>, b: seq<Tree>)
    requires forall i :: 0 <= i < |a| ==> WellFormed(a[i])
    requires forall i :: 0 <= i < |b| ==> WellFormed(b[i])
    requires NormItems(a) == NormItems(b)
    ensures PrintItems(a) == PrintItems(b)
    decreases a, 0
  {
    assert |a| == |b|;
    if a != [] {
      assert NormItems(a)[0] == NormItems(b)[0];
      assert NormItems(a[1..]) == NormItems(a)[1..] && NormItems(b[1..]) == NormItems(b)[1..];
      EqualItems(a[1..], b[1..]);
      if a[0] != Undefined && b[0] != Undefined {
        EqualNormEqualText(a[0], b[0]);
      } else if a[0] != Undefined {
        assert a[0] == Null;
      } else if b[0] != Undefined {
        assert b[0] == Null;
      }
    }
  }

  lemma {:induction false} EqualMembers(a: seq<Member>, b: seq<Member>)
    requires WellFormedMembers(a) && WellFormedMembers(b)
    requires NormMembers(a) == NormMembers(b)
    ensures PrintMembers(a, SortedKeys(a)) == PrintMembers(b, SortedKeys(b))
    decreases a, |SortedKeys(a)| + 1
  {
    KeptSorted(a);
    KeptSorted(b);
    var ka, kb := Kept(a, SortedKeys(a)), Kept(b, SortedKeys(b));
    assert forall k :: k in ka <==> k in NormMembers(a);
    assert forall k :: k in kb <==> k in NormMembers(b);
    IncreasingUnique(ka, kb);
    PrintKept(a, SortedKeys(a));
    PrintKept(b, SortedKeys(b));
    KeptCount(a, SortedKeys(a));
    EqualEntries(a, b, ka);
  }

  lemma {:induction false} KeptCount(members: seq<Member>, keys: seq<Text>)
    ensures |Kept(members, keys)| <= |keys|
  {
    if keys != [] { KeptCount(members, keys[1..]); }
  }

  lemma KeptSorted(members: seq<Member>)
    requires Distinct(KeysOf(members))
    ensures Increasing(Kept(members, SortedKeys(members)))
    ensures forall k :: k in Kept(members, SortedKeys(members)) <==> k in NormMembers(members)
  {
    SortKeysIncreasing(KeysOf(members));
    KeptKeys(members, SortedKeys(members));
    forall k ensures k in Kept(members, SortedKeys(members)) <==> k in NormMembers(members) {
      NormMembersAt(members, k);
      if HasKey(members, k) {
        var i :| 0 <= i < |members| && members[i].key == k;
        assert KeysOf(members)[i] == k;
      }
    }
  }

  lemma {:induction false} EqualEntries(a: seq<Member>, b: seq<Member>, keys: seq<Text>)
    requires WellFormedMembers(a) && WellFormedMembers(b)
    requires NormMembers(a) == NormMembers(b)
    requires forall k :: k in keys ==> k in NormMembers(a)
    ensures PrintMembers(a, keys) == PrintMembers(b, keys)
    decreases a, |keys|
  {
    if keys != [] {
      EqualEntries(a, b, keys[1..]);
      NormMembersAt(a, keys[0]);
      NormMembersAt(b, keys[0]);
      assert keys[0] in keys;
      var i :| 0 <= i < |a| && a[i] == Member(keys[0], Find(a, keys[0]));
      var j :| 0 <= j < |b| && b[j] == Member(keys[0], Find(b, keys[0]));
      EqualNormEqualText(a[i].value, b[j].value);
    }
  }

  /** The main result: same text if and only if same normal form. */
  lemma CanonicalIffSameNorm(t: Tree, u: Tree)
    requires WellFormed(t) && WellFormed(u)
    ensures Canonical(t) == Canonical(u) <==> Norm(t) == Norm(u)
  {
    if Canonical(t) == Canonical(u) {
      EqualTextEqualNorm(t, u);
    }
    if Norm(t) == Norm(u) {
      EqualNormEqualText(t, u);
    }
  }

  /** Key order never shows: the same members in another order print the same text. */
  lemma KeyOrderInvisible(a: seq<Member>, b: seq<Member>)
    requires WellFormed(Obj(a)) && WellFormed(Obj(b)) && multiset(a) == multiset(b)
    ensures Canonical(Obj(a)) == Canonical(Obj(b))
  {
    forall k ensures k in NormMembers(a) <==> k in NormMembers(b) {
      SameMemberAt(a, b, k);
      SameMemberAt(b, a, k);
    }
    forall k | k in NormMembers(a) ensures NormMembers(a)[k] == NormMembers(b)[k] {
      SameMemberAt(a, b, k);
    }
    assert NormMembers(a) == NormMembers(b);
    CanonicalIffSameNorm(Obj(a), Obj(b));
  }

  lemma SameMemberAt(a: seq<Member>, b: seq<Member>, k: Text)
    requires WellFormed(Obj(a)) && WellFormed(Obj(b)) && multiset(a) == multiset(b)
    ensures k in NormMembers(a) ==> k in NormMembers(b) && NormMembers(a)[k] == NormMembers(b)[k]
  {
    NormMembersAt(a, k);
    NormMembersAt(b, k);
    if k in NormMembers(a) {
      var i :| 0 <= i < |a| && a[i] == Member(k, Find(a, k));
      assert a[i] in multiset(b);
      var j :| 0 <= j < |b| && b[j] == a[i];
      FindUnique(b, j);
    }
  }
}
