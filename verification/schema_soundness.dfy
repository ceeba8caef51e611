/**
 * The main results about the diff: which accepted values survive a non-breaking change,
 * and how verdicts compose.
 */
module SchemaSoundness {
  import opened Wrappers
  import opened Schemas
  import opened SchemaDiff
  import opened SchemaMeaning

  // --- which descriptors have values ---

  ghost predicate HasValue(re: Regex, d: Descriptor) {
    exists v :: v != Missing && AcceptsPresent(re, d, v)
  }

  predicate AllowsLength(d: Descriptor, n: nat) {
    InRange(n as real, d.min, d.max)
  }

  ghost predicate AllowsItems(d: Descriptor) {
    exists n: nat :: 0 < n && AllowsLength(d, n)
  }

  /** Something may stand where the descriptor is used: nothing at all, null or a value. */
  ghost predicate Fillable(re: Regex, d: Descriptor)
    decreases d, 1
  {
    Omittable(d) || d.isNullable || Inhabited(re, d)
  }

  /** Has a value, read off the parts: an object when every required part has one, an array when it may be empty or has items. */
  ghost predicate Inhabited(re: Regex, d: Descriptor)
    decreases d, 0
  {
    match d.kind
    case ObjectKind => forall i :: 0 <= i < |d.properties| ==> Fillable(re, d.properties[i].desc)
    case ArrayKind => AllowsLength(d, 0) || (AllowsItems(d) && (d.arrayItem.Some? ==> Fillable(re, d.arrayItem.value)))
    case _ => HasValue(re, d)
  }

  /**
   * A real break that the comparer's key sets hide, at a place some old value reaches: a new
   * required property, or a dropped enum variant, whose name every plain object inherits.
   */
  ghost predicate Hides(re: Regex, before: Descriptor, after: Descriptor)
    decreases before
  {
    before.kind == after.kind &&
    match before.kind
    case ObjectKind =>
      && Inhabited(re, before)
      && (|| (exists j :: 0 <= j < |after.properties| && HiddenAddition(before.properties, after.properties[j]))
          || (exists i :: 0 <= i < |before.properties| && HidesIn(re, before.properties[i], after.properties)))
    case EnumKind =>
      exists i :: 0 <= i < |before.enumValues| && Inherited(before.enumValues[i]) && before.enumValues[i] !in after.enumValues
    case ArrayKind =>
      AllowsItems(before) && before.arrayItem.Some? && after.arrayItem.Some? && Hides(re, before.arrayItem.value, after.arrayItem.value)
    case _ => false
  }

  ghost predicate HidesIn(re: Regex, field: Property, after: seq<Property>)
    decreases field
  {
    Owns(after, field.name) && Hides(re, field.desc, Lookup(after, field.name))
  }

  /** The same for a part that the comparer never reads and that became tighter. */
  ghost predicate Tightens(re: Regex, before: Descriptor, after: Descriptor)
    decreases before
  {
    before.kind == after.kind &&
    match before.kind
    case NumberKind => after.isInt && !before.isInt && exists x :: FractionAllowed(before, x)
    case LiteralKind =>
      && before.literalValue != after.literalValue && before.literalValue != Missing
      && (before.literalValue == NullValue ==> !after.isNullable)
    case UnionKind => exists v :: MemberLost(re, before, after, v)
    case DiscriminatedUnionKind => exists v :: MemberLost(re, before, after, v)
    case ObjectKind =>
      Inhabited(re, before) && exists i :: 0 <= i < |before.properties| && TightensIn(re, before.properties[i], after.properties)
    case ArrayKind =>
      || (exists n: nat :: LengthLost(re, before, after, n))
      || (AllowsItems(before) && before.arrayItem.Some? && after.arrayItem.Some? && Tightens(re, before.arrayItem.value, after.arrayItem.value))
      || (AllowsItems(before) && before.arrayItem.None? && after.arrayItem.Some? && exists v :: !Accepts(re, after.arrayItem.value, v))
    case _ => false
  }

  ghost predicate TightensIn(re: Regex, field: Property, after: seq<Property>)
    decreases field
  {
    Owns(after, field.name) && Tightens(re, field.desc, Lookup(after, field.name))
  }

  predicate FractionAllowed(d: Descriptor, x: real) {
    InRange(x, d.min, d.max) && x != x.Floor as real
  }

  /** A value of some old member and of no new one. */
  ghost predicate MemberLost(re: Regex, before: Descriptor, after: Descriptor, v: Value) {
    && v != Missing && (v == NullValue ==> !after.isNullable)
    && (exists i :: 0 <= i < |before.unionMembers| && Accepts(re, before.unionMembers[i], v))
    && (forall i :: 0 <= i < |after.unionMembers| ==> !Accepts(re, after.unionMembers[i], v))
  }

  /** A length that old arrays have and new ones may not. */
  ghost predicate LengthLost(re: Regex, before: Descriptor, after: Descriptor, n: nat) {
    && AllowsLength(before, n) && !AllowsLength(after, n)
    && (n == 0 || before.arrayItem.None? || Fillable(re, before.arrayItem.value))
  }

  predicate HiddenAddition(before: seq<Property>, field: Property) {
    !Owns(before, field.name) && Inherited(field.name) && !Omittable(field.desc)
  }

  // --- a non-breaking change that hides and tightens nothing loses no value ---

  lemma {:induction false} Sound(re: Regex, before: Descriptor, after: Descriptor, v: Value)
    requires WellFormed(before) && WellFormed(after)
    requires NonBreaking(before, after) && !Hides(re, before, after) && !Tightens(re, before, after)
    requires Accepts(re, before, v)
    ensures Accepts(re, after, v)
    decreases before
  {
    if v != Missing && !(v == NullValue && after.isNullable) {
      match before.kind
      case ObjectKind => SoundObject(re, before, after, v);
      case ArrayKind => SoundArray(re, before, after, v);
      case UnionKind => assert !MemberLost(re, before, after, v);
      case DiscriminatedUnionKind => assert !MemberLost(re, before, after, v);
      case NumberKind => assert !FractionAllowed(before, v.n) || !after.isInt || before.isInt;
      case EnumKind =>
        var i :| 0 <= i < |before.enumValues| && before.enumValues[i] == v.s;
        assert ValueSetHas(after.enumValues, before.enumValues[i]);
      case _ =>
    }
  }

  lemma {:induction false} SoundArray(re: Regex, before: Descriptor, after: Descriptor, v: Value)
    requires before.kind == ArrayKind
    requires WellFormed(before) && WellFormed(after)
    requires NonBreaking(before, after) && !Hides(re, before, after) && !Tightens(re, before, after)
    requires AcceptsPresent(re, before, v)
    ensures AcceptsPresent(re, after, v)
    decreases before, 0
  {
    var n := |v.items|;
    assert n > 0 ==> AllowsItems(before) by { assert AllowsLength(before, n); }
    if n > 0 && before.arrayItem.Some? {
      CanFillItem(re, before.arrayItem.value, v.items[0]);
    }
    assert !LengthLost(re, before, after, n);
    if after.arrayItem.Some? {
      forall i | 0 <= i < n ensures Accepts(re, after.arrayItem.value, v.items[i]) {
        if before.arrayItem.Some? {
          Sound(re, before.arrayItem.value, after.arrayItem.value, v.items[i]);
        }
      }
    }
  }

  lemma CanFillItem(re: Regex, d: Descriptor, v: Value)
    requires WellFormed(d) && Accepts(re, d, v)
    ensures Fillable(re, d)
  {
    InhabitedIff(re, d);
  }

  lemma {:induction false} SoundObject(re: Regex, before: Descriptor, after: Descriptor, v: Value)
    requires before.kind == ObjectKind
    requires WellFormed(before) && WellFormed(after)
    requires NonBreaking(before, after) && !Hides(re, before, after) && !Tightens(re, before, after)
    requires AcceptsPresent(re, before, v)
    ensures AcceptsPresent(re, after, v)
    decreases before, 0
  {
    var b, a := before.properties, after.properties;
    InhabitedIff(re, before);
    forall name | name in v.fields ensures Owns(a, name) {
      assert Owns(b, name);
      var i :| 0 <= i < |b| && b[i].name == name;
      assert Owns(a, b[i].name);
    }
    forall j | 0 <= j < |a| ensures Accepts(re, a[j].desc, Get(v.fields, a[j].name)) {
      if Owns(b, a[j].name) {
        var i :| 0 <= i < |b| && b[i].name == a[j].name;
        LookupUnique(a, j);
        assert !HidesIn(re, b[i], a) && !TightensIn(re, b[i], a);
        Sound(re, b[i].desc, a[j].desc, Get(v.fields, b[i].name));
      } else {
        assert !HiddenAddition(b, a[j]);
        assert a[j].name !in v.fields;
      }
    }
  }

  // --- and a change that hides or tightens something does lose a value ---

  function NamesOf(props: seq<Property>): (names: set<string>)
    ensures forall name :: name in names <==> Owns(props, name)
  {
    set i | 0 <= i < |props| :: props[i].name
  }

  /** An object built field by field from values that the properties accept. */
  lemma BuildObject(re: Regex, d: Descriptor, pick: map<string, Value>) returns (v: Value)
    requires d.kind == ObjectKind && pick.Keys == NamesOf(d.properties)
    requires forall i :: 0 <= i < |d.properties| ==> d.properties[i].name in pick && Accepts(re, d.properties[i].desc, pick[d.properties[i].name])
    ensures v == ObjValue(pick) && AcceptsPresent(re, d, v)
  {
    v := ObjValue(pick);
    assert forall i :: 0 <= i < |d.properties| ==> Get(pick, d.properties[i].name) == pick[d.properties[i].name];
  }

  ghost function Choose(re: Regex, d: Descriptor): (v: Value)
    requires HasValue(re, d)
    ensures v != Missing && AcceptsPresent(re, d, v) && Accepts(re, d, v)
  {
    var v :| v != Missing && AcceptsPresent(re, d, v);
    v
  }

  /** A value for an array item or a property that may be filled. */
  ghost function Filling(re: Regex, d: Descriptor): (v: Value)
    requires CanFill(re, d)
    ensures Accepts(re, d, v)
  {
    if Omittable(d) then Missing else if d.isNullable then NullValue else Choose(re, d)
  }

  /** The parts of a descriptor, by whether values exist. */
  ghost predicate CanFill(re: Regex, d: Descriptor) {
    Omittable(d) || d.isNullable || HasValue(re, d)
  }

  /** A descriptor has a value exactly when its parts say so. */
  lemma {:induction false} InhabitedIff(re: Regex, d: Descriptor)
    requires WellFormed(d)
    ensures HasValue(re, d) <==> Inhabited(re, d)
    decreases d
  {
    if d.kind == ObjectKind {
      forall i | 0 <= i < |d.properties| ensures CanFill(re, d.properties[i].desc) <==> Fillable(re, d.properties[i].desc) {
        InhabitedIff(re, d.properties[i].desc);
      }
      ObjectHasValueIff(re, d);
    } else if d.kind == ArrayKind {
      if d.arrayItem.Some? {
        InhabitedIff(re, d.arrayItem.value);
        assert CanFill(re, d.arrayItem.value) <==> Fillable(re, d.arrayItem.value);
      }
      ArrayHasValueIff(re, d);
    }
  }

  lemma ObjectHasValueIff(re: Regex, d: Descriptor)
    requires d.kind == ObjectKind && WellFormed(d)
    ensures HasValue(re, d) <==> forall i :: 0 <= i < |d.properties| ==> CanFill(re, d.properties[i].desc)
  {
    if i :| 0 <= i < |d.properties| && !CanFill(re, d.properties[i].desc) {
      NoObject(re, d, i);
    } else {
      FillObject(re, d);
    }
  }

  lemma ArrayHasValueIff(re: Regex, d: Descriptor)
    requires d.kind == ArrayKind
    ensures HasValue(re, d) <==> AllowsLength(d, 0) || (AllowsItems(d) && (d.arrayItem.Some? ==> CanFill(re, d.arrayItem.value)))
  {
    if AllowsLength(d, 0) || (AllowsItems(d) && (d.arrayItem.Some? ==> CanFill(re, d.arrayItem.value))) {
      FillArray(re, d);
    } else {
      NoArray(re, d);
    }
  }

  lemma FillObject(re: Regex, d: Descriptor)
    requires d.kind == ObjectKind && WellFormed(d)
    requires forall i :: 0 <= i < |d.properties| ==> CanFill(re, d.properties[i].desc)
    ensures HasValue(re, d)
  {
    var props := d.properties;
    forall i | 0 <= i < |props| ensures Owns(props, props[i].name) && Lookup(props, props[i].name) == props[i].desc {
      LookupUnique(props, i);
    }
    forall name | name in NamesOf(props) ensures CanFill(re, Lookup(props, name)) {
      var i :| 0 <= i < |props| && props[i].name == name;
    }
    var pick := map name | name in NamesOf(props) :: Filling(re, Lookup(props, name));
    var v := BuildObject(re, d, pick);
  }

  lemma NoObject(re: Regex, d: Descriptor, i: nat)
    requires d.kind == ObjectKind && i < |d.properties| && !CanFill(re, d.properties[i].desc)
    ensures !HasValue(re, d)
  {
    forall v | v != Missing ensures !AcceptsPresent(re, d, v) {
      if v.ObjValue? {
        assert !Accepts(re, d.properties[i].desc, Get(v.fields, d.properties[i].name));
      }
    }
  }

  lemma FillArray(re: Regex, d: Descriptor)
    requires d.kind == ArrayKind
    requires AllowsLength(d, 0) || (AllowsItems(d) && (d.arrayItem.Some? ==> CanFill(re, d.arrayItem.value)))
    ensures HasValue(re, d)
  {
    if AllowsLength(d, 0) {
      assert AcceptsPresent(re, d, ArrValue([]));
    } else {
      var n: nat :| 0 < n && AllowsLength(d, n);
      var item := if d.arrayItem.Some? then Filling(re, d.arrayItem.value) else NullValue;
      assert AcceptsPresent(re, d, ArrValue(seq(n, _ => item)));
    }
  }

  lemma NoArray(re: Regex, d: Descriptor)
    requires d.kind == ArrayKind && !AllowsLength(d, 0)
    requires !AllowsItems(d) || (d.arrayItem.Some? && !CanFill(re, d.arrayItem.value))
    ensures !HasValue(re, d)
  {
    forall v | v != Missing ensures !AcceptsPresent(re, d, v) {
      if v.ArrValue? && AllowsLength(d, |v.items|) {
        assert |v.items| > 0 && AllowsItems(d);
        assert !Accepts(re, d.arrayItem.value, v.items[0]);
      }
    }
  }

  ghost predicate Lost(re: Regex, before: Descriptor, after: Descriptor, v: Value) {
    v != Missing && Accepts(re, before, v) && !Accepts(re, after, v)
  }

  lemma {:induction false} HiddenLoss(re: Regex, before: Descriptor, after: Descriptor) returns (v: Value)
    requires WellFormed(before) && WellFormed(after)
    requires NonBreaking(before, after) && Hides(re, before, after)
    ensures Lost(re, before, after, v)
    decreases before
  {
    match before.kind
    case ObjectKind =>
      var b, a := before.properties, after.properties;
      if j :| 0 <= j < |a| && HiddenAddition(b, a[j]) {
        InhabitedIff(re, before);
        v := Choose(re, before);
        assert a[j].name !in v.fields;
        assert !Accepts(re, a[j].desc, Get(v.fields, a[j].name));
      } else {
        var i :| 0 <= i < |b| && HidesIn(re, b[i], a);
        var bad := HiddenLoss(re, b[i].desc, Lookup(a, b[i].name));
        v := FieldLoss(re, before, after, i, bad);
      }
    case ArrayKind =>
      var bad := HiddenLoss(re, before.arrayItem.value, after.arrayItem.value);
      v := ItemLoss(re, before, after, bad);
    case EnumKind =>
      var i :| 0 <= i < |before.enumValues| && Inherited(before.enumValues[i]) && before.enumValues[i] !in after.enumValues;
      v := StrValue(before.enumValues[i]);
  }

  lemma {:induction false} TightenedLoss(re: Regex, before: Descriptor, after: Descriptor) returns (v: Value)
    requires WellFormed(before) && WellFormed(after)
    requires NonBreaking(before, after) && Tightens(re, before, after)
    ensures Lost(re, before, after, v)
    decreases before
  {
    match before.kind
    case NumberKind =>
      var x :| FractionAllowed(before, x);
      v := NumValue(x);
    case LiteralKind => v := before.literalValue;
    case UnionKind => v :| MemberLost(re, before, after, v);
    case DiscriminatedUnionKind => v :| MemberLost(re, before, after, v);
    case ObjectKind =>
      var b, a := before.properties, after.properties;
      var i :| 0 <= i < |b| && TightensIn(re, b[i], a);
      var bad := TightenedLoss(re, b[i].desc, Lookup(a, b[i].name));
      v := FieldLoss(re, before, after, i, bad);
    case ArrayKind =>
      if n: nat :| LengthLost(re, before, after, n) {
        v := LengthLoss(re, before, after, n);
      } else if before.arrayItem.Some? {
        var bad := TightenedLoss(re, before.arrayItem.value, after.arrayItem.value);
        v := ItemLoss(re, before, after, bad);
      } else {
        var bad :| !Accepts(re, after.arrayItem.value, bad);
        v := ItemLoss(re, before, after, bad);
      }
  }

  /** A value lost in one field, put into an object. */
  lemma FieldLoss(re: Regex, before: Descriptor, after: Descriptor, i: nat, bad: Value) returns (v: Value)
    requires before.kind == ObjectKind && after.kind == ObjectKind && WellFormed(before) && Inhabited(re, before)
    requires i < |before.properties| && Owns(after.properties, before.properties[i].name)
    requires Lost(re, before.properties[i].desc, Lookup(after.properties, before.properties[i].name), bad)
    ensures Lost(re, before, after, v)
  {
    var a, name := after.properties, before.properties[i].name;
    var k :| 0 <= k < |a| && a[k] == Property(name, Lookup(a, name));
    v := WithField(re, before, i, bad);
    assert !Accepts(re, a[k].desc, Get(v.fields, a[k].name));
  }

  /** An item that is lost, repeated as often as old arrays ask. */
  lemma ItemLoss(re: Regex, before: Descriptor, after: Descriptor, bad: Value) returns (v: Value)
    requires before.kind == ArrayKind && after.kind == ArrayKind && AllowsItems(before) && after.arrayItem.Some?
    requires (before.arrayItem.Some? ==> Accepts(re, before.arrayItem.value, bad)) && !Accepts(re, after.arrayItem.value, bad)
    ensures Lost(re, before, after, v)
  {
    var n: nat :| 0 < n && AllowsLength(before, n);
    v := ArrValue(seq(n, _ => bad));
    assert v.items[0] == bad;
  }

  lemma LengthLoss(re: Regex, before: Descriptor, after: Descriptor, n: nat) returns (v: Value)
    requires before.kind == ArrayKind && after.kind == ArrayKind && WellFormed(before) && LengthLost(re, before, after, n)
    ensures Lost(re, before, after, v)
  {
    var item := Missing;
    if n > 0 && before.arrayItem.Some? {
      InhabitedIff(re, before.arrayItem.value);
      item := Filling(re, before.arrayItem.value);
    }
    v := ArrValue(seq(n, _ => item));
  }

  /** An accepted object whose i-th property holds a chosen accepted value. */
  lemma WithField(re: Regex, d: Descriptor, i: nat, chosen: Value) returns (v: Value)
    requires d.kind == ObjectKind && WellFormed(d) && Inhabited(re, d)
    requires i < |d.properties| && Accepts(re, d.properties[i].desc, chosen)
    ensures v.ObjValue? && AcceptsPresent(re, d, v) && Get(v.fields, d.properties[i].name) == chosen
  {
    InhabitedIff(re, d);
    var whole := Choose(re, d);
    var pick := map name | name in NamesOf(d.properties) :: if name == d.properties[i].name then chosen else Get(whole.fields, name);
    forall k | 0 <= k < |d.properties| ensures Accepts(re, d.properties[k].desc, pick[d.properties[k].name]) {
      assert k != i ==> d.properties[k].name != d.properties[i].name;
      assert Accepts(re, d.properties[k].desc, Get(whole.fields, d.properties[k].name));
    }
    v := BuildObject(re, d, pick);
  }

  /**
   * Soundness, exactly: a diff without breaking changes keeps every accepted value if and only
   * if, where an old value reaches, it hides no break behind an inherited name and nothing the
   * comparer never reads became tighter.
   */
  lemma DiffSoundIff(re: Regex, before: Descriptor, after: Descriptor, ignore: bool)
    requires WellFormed(before) && WellFormed(after)
    requires !Reports(Diff(before, after, "", ignore), Breaking)
    ensures Included(re, before, after) <==> !Hides(re, before, after) && !Tightens(re, before, after)
  {
    VerdictMatchesChanges(before, after, "", ignore);
    if Hides(re, before, after) {
      var v := HiddenLoss(re, before, after);
      assert Accepts(re, before, v) && !Accepts(re, after, v);
    } else if Tightens(re, before, after) {
      var v := TightenedLoss(re, before, after);
      assert Accepts(re, before, v) && !Accepts(re, after, v);
    } else {
      forall v | Accepts(re, before, v) ensures Accepts(re, after, v) {
        Sound(re, before, after, v);
      }
    }
  }

  /** The parts the comparer never reads became no tighter, read off the descriptors alone. */
  ghost predicate NoTighterWhereUnread(before: Descriptor, after: Descriptor)
    decreases before
  {
    before.kind == after.kind ==>
      match before.kind
      case NumberKind => after.isInt ==> before.isInt
      case LiteralKind => before.literalValue == after.literalValue
      case UnionKind => forall i :: 0 <= i < |before.unionMembers| ==> before.unionMembers[i] in after.unionMembers
      case DiscriminatedUnionKind => forall i :: 0 <= i < |before.unionMembers| ==> before.unionMembers[i] in after.unionMembers
      case ArrayKind =>
        && (after.min.Some? ==> before.min.Some? && after.min.value <= before.min.value)
        && (after.max.Some? ==> before.max.Some? && before.max.value <= after.max.value)
        && (after.arrayItem.Some? ==> before.arrayItem.Some? && NoTighterWhereUnread(before.arrayItem.value, after.arrayItem.value))
      case ObjectKind =>
        forall i :: 0 <= i < |before.properties| && Owns(after.properties, before.properties[i].name) ==>
          NoTighterWhereUnread(before.properties[i].desc, Lookup(after.properties, before.properties[i].name))
      case _ => true
  }

  lemma {:induction false} NoTighter(re: Regex, before: Descriptor, after: Descriptor)
    requires NoTighterWhereUnread(before, after)
    ensures !Tightens(re, before, after)
    decreases before
  {
    if before.kind == after.kind {
      match before.kind
      case ObjectKind =>
        forall i | 0 <= i < |before.properties| ensures !TightensIn(re, before.properties[i], after.properties) {
          if Owns(after.properties, before.properties[i].name) {
            NoTighter(re, before.properties[i].desc, Lookup(after.properties, before.properties[i].name));
          }
        }
      case ArrayKind =>
        if before.arrayItem.Some? && after.arrayItem.Some? {
          NoTighter(re, before.arrayItem.value, after.arrayItem.value);
        }
      case UnionKind => NoMemberLost(re, before, after);
      case DiscriminatedUnionKind => NoMemberLost(re, before, after);
      case _ =>
    }
  }

  lemma NoMemberLost(re: Regex, before: Descriptor, after: Descriptor)
    requires forall i :: 0 <= i < |before.unionMembers| ==> before.unionMembers[i] in after.unionMembers
    ensures forall v :: !MemberLost(re, before, after, v)
  {
    forall v ensures !MemberLost(re, before, after, v) {
      if i :| 0 <= i < |before.unionMembers| && Accepts(re, before.unionMembers[i], v) {
        var k :| 0 <= k < |after.unionMembers| && after.unionMembers[k] == before.unionMembers[i];
        assert Accepts(re, after.unionMembers[k], v);
      }
    }
  }

  /** Every value survives a diff that reports and hides no break, when nothing unread became tighter. */
  lemma DiffSound(re: Regex, before: Descriptor, after: Descriptor, ignore: bool)
    requires WellFormed(before) && WellFormed(after)
    requires NoTighterWhereUnread(before, after)
    requires !Reports(Diff(before, after, "", ignore), Breaking)
    requires !Hides(re, before, after)
    ensures Included(re, before, after)
  {
    NoTighter(re, before, after);
    DiffSoundIff(re, before, after, ignore);
  }

  /** A concrete hidden break: `{}` becoming `{ constructor: string }` is reported as no change at all. */
  lemma HiddenBreakExample(re: Regex)
    ensures var before := Plain(ObjectKind);
            var after := Plain(ObjectKind).(properties := [Property("constructor", Plain(StringKind))]);
            && Diff(before, after, "", false) == []
            && !Included(re, before, after)
  {
    var before := Plain(ObjectKind);
    var after := Plain(ObjectKind).(properties := [Property("constructor", Plain(StringKind))]);
    assert Inherited("constructor");
    assert after.properties[..0] == [];
    assert AddedFields(before.properties, after.properties, "") == [];
    assert Diff(before, after, "", false) == [];
    var v := ObjValue(map[]);
    assert Accepts(re, before, v);
    assert !Accepts(re, after.properties[0].desc, Get(v.fields, "constructor"));
    assert !Accepts(re, after, v);
  }

  /** An array bound is never compared: raising it is no change at all, and loses the empty array; lowering it is harmless. */
  lemma UnreadBoundExample(re: Regex)
    ensures var free := Plain(ArrayKind).(arrayItem := Some(Plain(BooleanKind)));
            var bound := free.(min := Some(1.0));
            && Diff(free, bound, "", false) == [] && !Included(re, free, bound)
            && Diff(bound, free, "", false) == [] && Included(re, bound, free)
  {
    var free := Plain(ArrayKind).(arrayItem := Some(Plain(BooleanKind)));
    var bound := free.(min := Some(1.0));
    var v := ArrValue([]);
    assert Accepts(re, free, v) && !Accepts(re, bound, v);
    SelfDiffEmpty(Plain(BooleanKind), PathOf("") + "[]", false);
    assert Diff(free, bound, "", false) == [] && Diff(bound, free, "", false) == [];
    DiffSound(re, bound, free, false);
  }

  // --- non-breaking is a preorder ---

  lemma {:induction false} CommonFieldsSelf(props: seq<Property>, n: nat, cur: string, ignore: bool)
    requires n <= |props|
    requires forall i, j :: 0 <= i < j < |props| ==> props[i].name != props[j].name
    requires forall i :: 0 <= i < |props| ==> WellFormed(props[i].desc)
    ensures CommonFields(props[..n], props, cur, ignore) == []
    decreases props, n
  {
    if n > 0 {
      var field := props[n - 1];
      CommonFieldsSelf(props, n - 1, cur, ignore);
      CommonFieldsStep(props, n - 1, props, cur, ignore);
      LookupUnique(props, n - 1);
      SelfDiffEmpty(field.desc, ChildPath(cur, field.name), ignore);
      assert CommonField(field, props, cur, ignore) == [];
    }
  }

  lemma {:induction false} FieldsSelf(props: seq<Property>, n: nat, cur: string)
    requires n <= |props|
    ensures RemovedFields(props[..n], props, cur) == [] && AddedFields(props, props[..n], cur) == []
  {
    if n > 0 {
      FieldsSelf(props, n - 1, cur);
      assert props[..n][..n - 1] == props[..n - 1];
      assert Owns(props, props[n - 1].name);
    }
  }

  lemma {:induction false} VariantsSelf(values: seq<string>, n: nat, path: string)
    requires n <= |values|
    ensures RemovedVariants(values[..n], values, path) == [] && AddedVariants(values, values[..n], path) == []
  {
    if n > 0 {
      VariantsSelf(values, n - 1, path);
      assert values[..n][..n - 1] == values[..n - 1];
      assert values[n - 1] in values;
    }
  }

  /** A descriptor diffed with itself gives no changes. */
  lemma {:induction false} SelfDiffEmpty(d: Descriptor, cur: string, ignore: bool)
    requires WellFormed(d)
    ensures Diff(d, d, cur, ignore) == []
    decreases d
  {
    assert d.properties[..|d.properties|] == d.properties;
    assert d.enumValues[..|d.enumValues|] == d.enumValues;
    match d.kind
    case ObjectKind =>
      FieldsSelf(d.properties, |d.properties|, cur);
      CommonFieldsSelf(d.properties, |d.properties|, cur, ignore);
    case EnumKind => VariantsSelf(d.enumValues, |d.enumValues|, PathOf(cur));
    case ArrayKind =>
      if d.arrayItem.Some? {
        SelfDiffEmpty(d.arrayItem.value, PathOf(cur) + "[]", ignore);
      }
    case _ =>
  }

  /** Every array, at any depth, names its item. */
  ghost predicate ArraysNameItems(d: Descriptor) {
    && (d.kind == ArrayKind ==> d.arrayItem.Some? && ArraysNameItems(d.arrayItem.value))
    && (d.kind == ObjectKind ==> forall i :: 0 <= i < |d.properties| ==> ArraysNameItems(d.properties[i].desc))
  }

  lemma {:induction false} NonBreakingTransitive(a: Descriptor, b: Descriptor, c: Descriptor)
    requires NonBreaking(a, b) && NonBreaking(b, c) && ArraysNameItems(b) && WellFormed(c)
    ensures NonBreaking(a, c)
    decreases a
  {
    match a.kind
    case ObjectKind =>
      forall i | 0 <= i < |a.properties|
        ensures Owns(c.properties, a.properties[i].name)
        ensures NonBreaking(a.properties[i].desc, Lookup(c.properties, a.properties[i].name))
      {
        FieldTransitive(a, b, c, i);
      }
      forall k | 0 <= k < |c.properties|
        ensures KeySetHas(a.properties, c.properties[k].name) || Omittable(c.properties[k].desc)
      {
        AdditionTransitive(a, b, c, k);
      }
    case EnumKind =>
      forall i | 0 <= i < |a.enumValues| ensures ValueSetHas(c.enumValues, a.enumValues[i]) {
        if a.enumValues[i] in b.enumValues {
          var j :| 0 <= j < |b.enumValues| && b.enumValues[j] == a.enumValues[i];
          assert ValueSetHas(c.enumValues, b.enumValues[j]);
        }
      }
    case ArrayKind =>
      if a.arrayItem.Some? && c.arrayItem.Some? {
        NonBreakingTransitive(a.arrayItem.value, b.arrayItem.value, c.arrayItem.value);
      }
    case _ =>
  }

  lemma {:induction false} FieldTransitive(a: Descriptor, b: Descriptor, c: Descriptor, i: nat)
    requires NonBreaking(a, b) && NonBreaking(b, c) && ArraysNameItems(b) && WellFormed(c)
    requires a.kind == ObjectKind && i < |a.properties|
    ensures Owns(c.properties, a.properties[i].name)
    ensures NonBreaking(a.properties[i].desc, Lookup(c.properties, a.properties[i].name))
    decreases a, 0
  {
    var middle := Lookup(b.properties, a.properties[i].name);
    var j :| 0 <= j < |b.properties| && b.properties[j] == Property(a.properties[i].name, middle);
    assert Owns(c.properties, b.properties[j].name);
    NonBreakingTransitive(a.properties[i].desc, middle, Lookup(c.properties, a.properties[i].name));
  }

  lemma AdditionTransitive(a: Descriptor, b: Descriptor, c: Descriptor, k: nat)
    requires NonBreaking(a, b) && NonBreaking(b, c) && WellFormed(c)
    requires a.kind == ObjectKind && k < |c.properties|
    ensures KeySetHas(a.properties, c.properties[k].name) || Omittable(c.properties[k].desc)
  {
    var added := c.properties[k];
    if !KeySetHas(a.properties, added.name) && Owns(b.properties, added.name) {
      var j :| 0 <= j < |b.properties| && b.properties[j].name == added.name;
      LookupUnique(c.properties, k);
      assert NonBreaking(b.properties[j].desc, added.desc);
      assert Omittable(b.properties[j].desc);
    }
  }

  /** The diff from `before` to `after` reports nothing breaking. */
  ghost predicate Passes(before: Descriptor, after: Descriptor, ignore: bool) {
    !Reports(Diff(before, after, "", ignore), Breaking)
  }

  /** Two non-breaking diffs in a row give a non-breaking diff. */
  lemma DiffTransitive(a: Descriptor, b: Descriptor, c: Descriptor, ignore: bool)
    requires ArraysNameItems(b) && WellFormed(c)
    requires Passes(a, b, ignore) && Passes(b, c, ignore)
    ensures Passes(a, c, ignore)
  {
    VerdictMatchesChanges(a, b, "", ignore);
    VerdictMatchesChanges(b, c, "", ignore);
    NonBreakingTransitive(a, b, c);
    VerdictMatchesChanges(a, c, "", ignore);
  }

  /** `d` with an item of the given kind wherever an array names none. */
  function Fill(d: Descriptor, item: Kind): (r: Descriptor)
    ensures |r.properties| == |d.properties|
    ensures forall i :: 0 <= i < |d.properties| ==> r.properties[i].name == d.properties[i].name
    decreases d
  {
    d.(arrayItem := if d.arrayItem.Some? then Some(Fill(d.arrayItem.value, item)) else Some(Plain(item)),
       properties := seq(|d.properties|, i requires 0 <= i < |d.properties| =>
                           Property(d.properties[i].name, Fill(d.properties[i].desc, item))))
  }

  /** Same fields in the same order, each compared without a break. */
  lemma PointwiseNonBreaking(before: Descriptor, after: Descriptor)
    requires WellFormed(before) && WellFormed(after)
    requires before.kind == after.kind == ObjectKind
    requires Omittable(before) == Omittable(after) && before.isNullable == after.isNullable
    requires |before.properties| == |after.properties|
    requires forall i :: 0 <= i < |before.properties| ==>
               before.properties[i].name == after.properties[i].name && NonBreaking(before.properties[i].desc, after.properties[i].desc)
    ensures NonBreaking(before, after)
  {
    var b, a := before.properties, after.properties;
    forall i | 0 <= i < |b| ensures Owns(a, b[i].name) && NonBreaking(b[i].desc, Lookup(a, b[i].name)) {
      LookupUnique(a, i);
    }
    forall j | 0 <= j < |a| ensures KeySetHas(b, a[j].name) {
      LookupUnique(b, j);
    }
  }

  lemma {:induction false} FillWellFormed(d: Descriptor, item: Kind)
    requires WellFormed(d)
    ensures WellFormed(Fill(d, item))
    decreases d
  {
    assert WellFormed(Plain(item));
    if d.arrayItem.Some? {
      FillWellFormed(d.arrayItem.value, item);
    }
    forall i | 0 <= i < |d.properties| ensures WellFormed(Fill(d, item).properties[i].desc) {
      FillWellFormed(d.properties[i].desc, item);
    }
  }

  /** Descriptors that differ in neither their flags, enum values nor constraints. */
  predicate SameLeaf(before: Descriptor, after: Descriptor) {
    && before.kind == after.kind && before.isOptional == after.isOptional
    && before.hasDefault == after.hasDefault && before.isNullable == after.isNullable
    && before.enumValues == after.enumValues
    && before.min == after.min && before.max == after.max && before.pattern == after.pattern
  }

  lemma LeafNonBreaking(before: Descriptor, after: Descriptor)
    requires SameLeaf(before, after) && before.kind != ObjectKind
    requires before.kind == ArrayKind && before.arrayItem.Some? && after.arrayItem.Some? ==>
               NonBreaking(before.arrayItem.value, after.arrayItem.value)
    ensures NonBreaking(before, after)
  {
    forall i | 0 <= i < |before.enumValues| ensures ValueSetHas(after.enumValues, before.enumValues[i]) {
    }
  }

  lemma {:induction false} FillNonBreaking(d: Descriptor, item: Kind)
    requires WellFormed(d)
    ensures NonBreaking(Fill(d, item), d) && NonBreaking(d, Fill(d, item))
    decreases d, 1
  {
    if d.kind == ObjectKind {
      FillObjectNonBreaking(d, item);
    } else {
      var r := Fill(d, item);
      assert SameLeaf(r, d) && SameLeaf(d, r);
      if d.arrayItem.Some? {
        FillNonBreaking(d.arrayItem.value, item);
      }
      LeafNonBreaking(r, d);
      LeafNonBreaking(d, r);
    }
  }

  lemma {:induction false} FillObjectNonBreaking(d: Descriptor, item: Kind)
    requires d.kind == ObjectKind && WellFormed(d)
    ensures NonBreaking(Fill(d, item), d) && NonBreaking(d, Fill(d, item))
    decreases d, 0
  {
    var r := Fill(d, item);
    FillWellFormed(d, item);
    forall i | 0 <= i < |d.properties|
      ensures NonBreaking(r.properties[i].desc, d.properties[i].desc)
      ensures NonBreaking(d.properties[i].desc, r.properties[i].desc)
    {
      FillNonBreaking(d.properties[i].desc, item);
    }
    PointwiseNonBreaking(r, d);
    PointwiseNonBreaking(d, r);
  }

  lemma FieldNonBreaking(before: Descriptor, after: Descriptor, i: nat, k: nat)
    requires WellFormed(after) && before.kind == ObjectKind && NonBreaking(before, after)
    requires i < |before.properties| && k < |after.properties| && before.properties[i].name == after.properties[k].name
    ensures NonBreaking(before.properties[i].desc, after.properties[k].desc)
  {
    LookupUnique(after.properties, k);
  }

  lemma {:induction false} FillsClash(d: Descriptor)
    requires WellFormed(d) && !ArraysNameItems(d)
    ensures !NonBreaking(Fill(d, StringKind), Fill(d, NumberKind))
    decreases d
  {
    var s, n := Fill(d, StringKind), Fill(d, NumberKind);
    if d.kind == ArrayKind {
      if d.arrayItem.Some? {
        FillsClash(d.arrayItem.value);
      }
    } else {
      var i :| 0 <= i < |d.properties| && !ArraysNameItems(d.properties[i].desc);
      FillWellFormed(d, NumberKind);
      if NonBreaking(s, n) {
        FieldNonBreaking(s, n, i, i);
        FillsClash(d.properties[i].desc);
      }
    }
  }

  /**
   * Non-breaking diffs compose through a middle schema if and only if every array in that
   * schema names its item.
   */
  lemma DiffTransitiveIff(b: Descriptor, ignore: bool)
    requires WellFormed(b)
    ensures ArraysNameItems(b) <==>
            (forall a, c :: WellFormed(c) && Passes(a, b, ignore) && Passes(b, c, ignore) ==> Passes(a, c, ignore))
  {
    if ArraysNameItems(b) {
      forall a, c | WellFormed(c) && Passes(a, b, ignore) && Passes(b, c, ignore) ensures Passes(a, c, ignore) {
        DiffTransitive(a, b, c, ignore);
      }
    } else {
      var a, c := Fill(b, StringKind), Fill(b, NumberKind);
      FillWellFormed(b, NumberKind);
      FillNonBreaking(b, StringKind);
      FillNonBreaking(b, NumberKind);
      FillsClash(b);
      VerdictMatchesChanges(a, b, "", ignore);
      VerdictMatchesChanges(b, c, "", ignore);
      VerdictMatchesChanges(a, c, "", ignore);
      assert Passes(a, b, ignore) && Passes(b, c, ignore) && !Passes(a, c, ignore);
    }
  }

  /** Arrays of strings, arrays of anything, arrays of numbers: each step passes, and the two together do not. */
  lemma TransitivityExample(ignore: bool)
    ensures var strings := Plain(ArrayKind).(arrayItem := Some(Plain(StringKind)));
            var numbers := Plain(ArrayKind).(arrayItem := Some(Plain(NumberKind)));
            && Passes(strings, Plain(ArrayKind), ignore) && Passes(Plain(ArrayKind), numbers, ignore)
            && !Passes(strings, numbers, ignore)
  {
    var strings := Plain(ArrayKind).(arrayItem := Some(Plain(StringKind)));
    var numbers := Plain(ArrayKind).(arrayItem := Some(Plain(NumberKind)));
    VerdictMatchesChanges(strings, Plain(ArrayKind), "", ignore);
    VerdictMatchesChanges(Plain(ArrayKind), numbers, "", ignore);
    VerdictMatchesChanges(strings, numbers, "", ignore);
  }
}
