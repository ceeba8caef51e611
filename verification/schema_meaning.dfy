/**
 * What a schema means - the set of values it accepts, objects being closed - and what
 * the diff's verdict says about those sets.
 */
module SchemaMeaning {
  import opened Wrappers
  import opened Schemas
  import opened SchemaDiff

  /** Whether a non-empty regular expression (the source text of the pattern) matches a string. */
  type Regex = (string, string) -> bool

  predicate InRange(x: real, min: Option<real>, max: Option<real>) {
    (min.Some? ==> min.value <= x) && (max.Some? ==> x <= max.value)
  }

  function Get(fields: map<string, Value>, name: string): Value {
    if name in fields then fields[name] else Missing
  }

  ghost predicate Accepts(re: Regex, d: Descriptor, v: Value)
    decreases d, 1
  {
    if v == Missing then Omittable(d)
    else (v == NullValue && d.isNullable) || AcceptsPresent(re, d, v)
  }

  /** The values of the underlying type, leaving optionality and nullability aside. */
  ghost predicate AcceptsPresent(re: Regex, d: Descriptor, v: Value)
    decreases d, 0
  {
    match d.kind
    case StringKind =>
      v.StrValue? && InRange(|v.s| as real, d.min, d.max) && (HasPattern(d.pattern) ==> re(d.pattern.value, v.s))
    case NumberKind =>
      v.NumValue? && InRange(v.n, d.min, d.max) && (d.isInt ==> v.n == v.n.Floor as real)
    case BooleanKind => v.BoolValue?
    case NullKind => v == NullValue
    case UndefinedKind => false
    case ObjectKind =>
      && v.ObjValue?
      && (forall name :: name in v.fields ==> Owns(d.properties, name))
      && (forall i :: 0 <= i < |d.properties| ==> Accepts(re, d.properties[i].desc, Get(v.fields, d.properties[i].name)))
    case ArrayKind =>
      && v.ArrValue?
      && InRange(|v.items| as real, d.min, d.max)
      && (d.arrayItem.Some? ==> forall i :: 0 <= i < |v.items| ==> Accepts(re, d.arrayItem.value, v.items[i]))
    case EnumKind => v.StrValue? && v.s in d.enumValues
    case UnionKind => exists i :: 0 <= i < |d.unionMembers| && Accepts(re, d.unionMembers[i], v)
    case DiscriminatedUnionKind => exists i :: 0 <= i < |d.unionMembers| && Accepts(re, d.unionMembers[i], v)
    case LiteralKind => v == d.literalValue
    case RecordKind => v.ObjValue?
    case AnyKind => true
    case UnknownKind => true
  }

  /** Everything the old schema accepts, the new one accepts. */
  ghost predicate Included(re: Regex, before: Descriptor, after: Descriptor) {
    forall v :: Accepts(re, before, v) ==> Accepts(re, after, v)
  }

  /** The verdict "no breaking change", read off the two descriptors without building a change list. */
  ghost predicate NonBreaking(before: Descriptor, after: Descriptor)
    decreases before
  {
    && before.kind == after.kind
    && (Omittable(before) ==> Omittable(after))
    && (before.isNullable ==> after.isNullable)
    && match before.kind
       case ObjectKind =>
         && (forall i :: 0 <= i < |before.properties| ==>
               && Owns(after.properties, before.properties[i].name)
               && NonBreaking(before.properties[i].desc, Lookup(after.properties, before.properties[i].name)))
         && (forall j :: 0 <= j < |after.properties| ==>
               KeySetHas(before.properties, after.properties[j].name) || Omittable(after.properties[j].desc))
       case EnumKind => forall i :: 0 <= i < |before.enumValues| ==> ValueSetHas(after.enumValues, before.enumValues[i])
       case ArrayKind =>
         before.arrayItem.Some? && after.arrayItem.Some? ==> NonBreaking(before.arrayItem.value, after.arrayItem.value)
       case NumberKind => Relaxed(before, after)
       case StringKind => Relaxed(before, after)
       case _ => true
  }

  predicate Relaxed(before: Descriptor, after: Descriptor) {
    && (after.min.Some? ==> before.min.Some? && after.min.value <= before.min.value)
    && (after.max.Some? ==> before.max.Some? && after.max.value >= before.max.value)
    && (HasPattern(after.pattern) ==> before.pattern == after.pattern)
  }

  // --- the change list and the verdict agree ---

  lemma ReportsConcat(s: seq<Change>, t: seq<Change>, c: Category)
    ensures Reports(s + t, c) <==> Reports(s, c) || Reports(t, c)
  {
    if Reports(s + t, c) {
      var i :| 0 <= i < |s + t| && (s + t)[i].category == c;
      if i < |s| { assert s[i].category == c; } else { assert t[i - |s|].category == c; }
    }
    if Reports(s, c) {
      var i :| 0 <= i < |s| && s[i].category == c;
      assert (s + t)[i].category == c;
    }
    if Reports(t, c) {
      var i :| 0 <= i < |t| && t[i].category == c;
      assert (s + t)[|s| + i].category == c;
    }
  }

  lemma ReportsSingle(change: Change, c: Category)
    ensures Reports([change], c) <==> change.category == c
  {
    assert [change][0] == change;
  }

  lemma {:induction false} RemovedFieldsBreak(before: seq<Property>, after: seq<Property>, cur: string)
    ensures Reports(RemovedFields(before, after, cur), Breaking) <==>
            exists i :: 0 <= i < |before| && !KeySetHas(after, before[i].name)
  {
    if before != [] {
      var n := |before| - 1;
      RemovedFieldsBreak(before[..n], after, cur);
      var change := Change(ChildPath(cur, before[n].name), FieldRemoved, Breaking);
      ReportsConcat(RemovedFields(before[..n], after, cur), if KeySetHas(after, before[n].name) then [] else [change], Breaking);
      ReportsSingle(change, Breaking);
      assert forall i :: 0 <= i < n ==> before[..n][i] == before[i];
    }
  }

  lemma {:induction false} AddedFieldsBreak(before: seq<Property>, after: seq<Property>, cur: string)
    ensures Reports(AddedFields(before, after, cur), Breaking) <==>
            exists i :: 0 <= i < |after| && !KeySetHas(before, after[i].name) && !Omittable(after[i].desc)
  {
    if after != [] {
      var n := |after| - 1;
      AddedFieldsBreak(before, after[..n], cur);
      var change := Change(ChildPath(cur, after[n].name), FieldAdded, if Omittable(after[n].desc) then Additive else Breaking);
      ReportsConcat(AddedFields(before, after[..n], cur), if KeySetHas(before, after[n].name) then [] else [change], Breaking);
      ReportsSingle(change, Breaking);
      assert forall i :: 0 <= i < n ==> after[..n][i] == after[i];
    }
  }

  lemma {:induction false} RemovedVariantsBreak(before: seq<string>, after: seq<string>, path: string)
    ensures Reports(RemovedVariants(before, after, path), Breaking) <==>
            exists i :: 0 <= i < |before| && !ValueSetHas(after, before[i])
  {
    if before != [] {
      var n := |before| - 1;
      RemovedVariantsBreak(before[..n], after, path);
      var change := Change(path, EnumVariantRemoved, Breaking);
      ReportsConcat(RemovedVariants(before[..n], after, path), if ValueSetHas(after, before[n]) then [] else [change], Breaking);
      ReportsSingle(change, Breaking);
      assert forall i :: 0 <= i < n ==> before[..n][i] == before[i];
    }
  }

  lemma {:induction false} AddedVariantsNeverBreak(before: seq<string>, after: seq<string>, path: string)
    ensures !Reports(AddedVariants(before, after, path), Breaking)
  {
    if after != [] {
      var n := |after| - 1;
      AddedVariantsNeverBreak(before, after[..n], path);
      ReportsConcat(AddedVariants(before, after[..n], path), if ValueSetHas(before, after[n]) then [] else [Change(path, EnumVariantAdded, Additive)], Breaking);
    }
  }

  lemma ConstraintsBreak(before: Descriptor, after: Descriptor, path: string)
    ensures Reports(ConstraintChanges(before, after, path), Breaking) <==> !Relaxed(before, after)
  {
    var mins := MinChanges(before.min, after.min, path);
    var maxs := MaxChanges(before.max, after.max, path);
    var patterns := PatternChanges(before.pattern, after.pattern, path);
    ReportsConcat(mins, maxs, Breaking);
    ReportsConcat(mins + maxs, patterns, Breaking);
    assert Reports(mins, Breaking) <==> |mins| == 1 && mins[0].category == Breaking;
    assert Reports(maxs, Breaking) <==> |maxs| == 1 && maxs[0].category == Breaking;
    assert Reports(patterns, Breaking) <==> |patterns| == 1 && patterns[0].category == Breaking;
  }

  /** What comparing one old property with the new properties finds. */
  ghost predicate FieldBreaks(field: Property, after: seq<Property>)
    decreases field
  {
    if Owns(after, field.name) then !NonBreaking(field.desc, Lookup(after, field.name)) else Inherited(field.name)
  }

  lemma {:induction false} FieldVerdict(field: Property, after: seq<Property>, cur: string, ignore: bool)
    ensures Reports(CommonField(field, after, cur, ignore), Breaking) <==> FieldBreaks(field, after)
    decreases field
  {
    if Owns(after, field.name) {
      VerdictMatchesChanges(field.desc, Lookup(after, field.name), ChildPath(cur, field.name), ignore);
    } else if Inherited(field.name) {
      var path := PathOf(ChildPath(cur, field.name));
      ReportsConcat(DescriptionChanges(field.desc.description, None, path, ignore), [Change(path, TypeChanged, Breaking)], Breaking);
      ReportsSingle(Change(path, TypeChanged, Breaking), Breaking);
    }
  }

  ghost predicate SomeFieldBreaks(before: seq<Property>, after: seq<Property>) {
    exists i :: 0 <= i < |before| && FieldBreaks(before[i], after)
  }

  lemma SomeFieldBreaksSplit(before: seq<Property>, after: seq<Property>)
    requires before != []
    ensures var n := |before| - 1;
            SomeFieldBreaks(before, after) <==> SomeFieldBreaks(before[..n], after) || FieldBreaks(before[n], after)
  {
    var n := |before| - 1;
    assert forall i :: 0 <= i < n ==> before[..n][i] == before[i];
  }

  lemma {:induction false} CommonFieldsBreak(before: seq<Property>, after: seq<Property>, cur: string, ignore: bool)
    ensures Reports(CommonFields(before, after, cur, ignore), Breaking) <==> SomeFieldBreaks(before, after)
    decreases before, 0
  {
    if before != [] {
      var n := |before| - 1;
      var front, tail := CommonFields(before[..n], after, cur, ignore), CommonField(before[n], after, cur, ignore);
      assert CommonFields(before, after, cur, ignore) == front + tail;
      CommonFieldsBreak(before[..n], after, cur, ignore);
      FieldVerdict(before[n], after, cur, ignore);
      ReportsConcat(front, tail, Breaking);
      SomeFieldBreaksSplit(before, after);
    }
  }

  /** The diff reports a breaking change exactly when the structural verdict is not "non-breaking". */
  lemma {:induction false} VerdictMatchesChanges(before: Descriptor, after: Descriptor, cur: string, ignore: bool)
    ensures Reports(Diff(before, after, cur, ignore), Breaking) <==> !NonBreaking(before, after)
    decreases before, 2
  {
    var path := PathOf(cur);
    var described := DescriptionChanges(before.description, after.description, path, ignore);
    assert !Reports(described, Breaking);
    if before.kind != after.kind {
      ReportsConcat(described, [Change(path, TypeChanged, Breaking)], Breaking);
      ReportsSingle(Change(path, TypeChanged, Breaking), Breaking);
    } else {
      var presence, details := PresenceChanges(before, after, path), DetailChanges(before, after, cur, ignore);
      ReportsConcat(described, presence + details, Breaking);
      ReportsConcat(presence, details, Breaking);
      PresenceBreaks(before, after, path);
      if (Omittable(before) ==> Omittable(after)) && (before.isNullable ==> after.isNullable) {
        DetailsBreak(before, after, cur, ignore);
      }
    }
  }

  lemma PresenceBreaks(before: Descriptor, after: Descriptor, path: string)
    ensures Reports(PresenceChanges(before, after, path), Breaking) <==>
            (Omittable(before) && !Omittable(after)) || (before.isNullable && !after.isNullable)
  {
    var optional, nullable := OptionalityChanges(before, after, path), NullabilityChanges(before, after, path);
    ReportsConcat(optional, nullable, Breaking);
    assert Reports(optional, Breaking) <==> |optional| == 1 && optional[0].category == Breaking;
    assert Reports(nullable, Breaking) <==> |nullable| == 1 && nullable[0].category == Breaking;
  }

  lemma {:induction false} DetailsBreak(before: Descriptor, after: Descriptor, cur: string, ignore: bool)
    requires before.kind == after.kind
    requires Omittable(before) ==> Omittable(after)
    requires before.isNullable ==> after.isNullable
    ensures Reports(DetailChanges(before, after, cur, ignore), Breaking) <==> !NonBreaking(before, after)
    decreases before, 1
  {
    match before.kind
    case ObjectKind =>
      var b, a := before.properties, after.properties;
      RemovedFieldsBreak(b, a, cur);
      AddedFieldsBreak(b, a, cur);
      CommonFieldsBreak(b, a, cur, ignore);
      ReportsConcat(RemovedFields(b, a, cur), AddedFields(b, a, cur), Breaking);
      ReportsConcat(RemovedFields(b, a, cur) + AddedFields(b, a, cur), CommonFields(b, a, cur, ignore), Breaking);
    case EnumKind =>
      RemovedVariantsBreak(before.enumValues, after.enumValues, PathOf(cur));
      AddedVariantsNeverBreak(before.enumValues, after.enumValues, PathOf(cur));
      ReportsConcat(RemovedVariants(before.enumValues, after.enumValues, PathOf(cur)),
                    AddedVariants(before.enumValues, after.enumValues, PathOf(cur)), Breaking);
    case ArrayKind =>
      if before.arrayItem.Some? && after.arrayItem.Some? {
        VerdictMatchesChanges(before.arrayItem.value, after.arrayItem.value, PathOf(cur) + "[]", ignore);
      }
    case NumberKind => ConstraintsBreak(before, after, PathOf(cur));
    case StringKind => ConstraintsBreak(before, after, PathOf(cur));
    case _ =>
  }
}
