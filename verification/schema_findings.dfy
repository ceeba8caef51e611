/**
 * What a diff reports, change by change: path, kind and category of everything in the list,
 * read off the two descriptors, and the verdicts that follow.
 */
module SchemaFindings {
  import opened Wrappers
  import opened Schemas
  import opened SchemaDiff
  import opened SchemaMeaning

  // --- what a change list holds, without the comparer ---

  /** How a place is named: the root is a dollar sign. */
  function Name(place: string): string {
    if |place| > 0 then place else "$"
  }

  function Below(place: string, key: string): string {
    if |place| > 0 then place + "." + key else key
  }

  /** A caller may leave out what is optional, and what has a default. */
  predicate Required(d: Descriptor) {
    !d.isOptional && !d.hasDefault
  }

  /** The object has this property, or inherits something of that name. */
  predicate Present(props: seq<Property>, name: string) {
    (exists i :: 0 <= i < |props| && props[i].name == name) || name in INHERITED_NAMES
  }

  predicate Listed(values: seq<string>, v: string) {
    v in values || v in INHERITED_NAMES
  }

  /** A description that changed, a required part that may now be left out, and so on: what is said about a pair itself. */
  ghost predicate FoundHere(before: Descriptor, after: Descriptor, place: string, ignore: bool, c: Change) {
    var name := Name(place);
    || (c == Change(name, DescriptionChanged, Additive) && !ignore && before.description != after.description)
    || (c == Change(name, TypeChanged, Breaking) && (before.kind != after.kind || (before.isNullable && !after.isNullable)))
    || (before.kind == after.kind
        && (|| (c == Change(name, TypeChanged, Additive) && !before.isNullable && after.isNullable)
            || (c == Change(name, RequiredChanged, Breaking) && !Required(before) && Required(after))
            || (c == Change(name, RequiredChanged, ConditionallyCompatible) && Required(before) && !Required(after))
            || (before.kind == ObjectKind && FoundAmongFields(before.properties, after.properties, place, c))
            || (before.kind == EnumKind && FoundAmongVariants(before.enumValues, after.enumValues, name, c))
            || ((before.kind == NumberKind || before.kind == StringKind) && FoundAmongLimits(before, after, name, c))))
  }

  ghost predicate FoundAmongFields(before: seq<Property>, after: seq<Property>, place: string, c: Change) {
    || (exists i :: 0 <= i < |before| && !Present(after, before[i].name) && c == Change(Below(place, before[i].name), FieldRemoved, Breaking))
    || (exists j :: 0 <= j < |after| && !Present(before, after[j].name) && c == AddedField(after[j], place))
  }

  function AddedField(field: Property, place: string): Change {
    Change(Below(place, field.name), FieldAdded, if Required(field.desc) then Breaking else Additive)
  }

  ghost predicate FoundAmongVariants(before: seq<string>, after: seq<string>, name: string, c: Change) {
    || (c == Change(name, EnumVariantRemoved, Breaking) && exists i :: 0 <= i < |before| && !Listed(after, before[i]))
    || (c == Change(name, EnumVariantAdded, Additive) && exists i :: 0 <= i < |after| && !Listed(before, after[i]))
  }

  predicate GivesPattern(d: Descriptor) {
    d.pattern.Some? && |d.pattern.value| > 0
  }

  ghost predicate FoundAmongLimits(before: Descriptor, after: Descriptor, name: string, c: Change) {
    || (c == Change(name, ConstraintTightened, Breaking)
        && (|| (after.min.Some? && (before.min.None? || before.min.value < after.min.value))
            || (after.max.Some? && (before.max.None? || after.max.value < before.max.value))
            || (GivesPattern(after) && before.pattern != after.pattern)))
    || (c == Change(name, ConstraintRelaxed, Additive)
        && (|| (before.min.Some? && after.min.Some? && after.min.value < before.min.value)
            || (before.max.Some? && after.max.Some? && before.max.value < after.max.value)
            || (GivesPattern(before) && !GivesPattern(after))))
  }

  /** Something said about a pair, or about a pair of parts that the comparison reaches. */
  ghost predicate Found(before: Descriptor, after: Descriptor, place: string, ignore: bool, c: Change)
    decreases before
  {
    || FoundHere(before, after, place, ignore, c)
    || (before.kind == ObjectKind && after.kind == ObjectKind
        && exists i :: 0 <= i < |before.properties| && FoundIn(before.properties[i], after.properties, place, ignore, c))
    || (before.kind == ArrayKind && after.kind == ArrayKind && before.arrayItem.Some? && after.arrayItem.Some?
        && Found(before.arrayItem.value, after.arrayItem.value, Name(place) + "[]", ignore, c))
  }

  /** A property that both sides have, or that is compared with an inherited member, which has neither type nor description. */
  ghost predicate FoundIn(field: Property, after: seq<Property>, place: string, ignore: bool, c: Change)
    decreases field
  {
    var below := Below(place, field.name);
    if Owns(after, field.name) then Found(field.desc, Lookup(after, field.name), below, ignore, c)
    else
      && field.name in INHERITED_NAMES
      && (|| c == Change(Name(below), TypeChanged, Breaking)
          || (c == Change(Name(below), DescriptionChanged, Additive) && !ignore && field.desc.description.Some?))
  }

  // --- the comparer lists exactly that ---

  lemma {:induction false} RemovedFound(before: seq<Property>, after: seq<Property>, place: string, c: Change)
    ensures c in RemovedFields(before, after, place) <==>
            exists i :: 0 <= i < |before| && !Present(after, before[i].name) && c == Change(Below(place, before[i].name), FieldRemoved, Breaking)
  {
    if before != [] {
      var n := |before| - 1;
      RemovedFound(before[..n], after, place, c);
      assert forall i :: 0 <= i < n ==> before[..n][i] == before[i];
    }
  }

  lemma {:induction false} AddedFound(before: seq<Property>, after: seq<Property>, place: string, c: Change)
    ensures c in AddedFields(before, after, place) <==>
            exists j :: 0 <= j < |after| && !Present(before, after[j].name) && c == AddedField(after[j], place)
  {
    if after != [] {
      var n := |after| - 1;
      AddedFound(before, after[..n], place, c);
      assert forall j :: 0 <= j < n ==> after[..n][j] == after[j];
    }
  }

  lemma {:induction false} RemovedVariantFound(before: seq<string>, after: seq<string>, name: string, c: Change)
    ensures c in RemovedVariants(before, after, name) <==>
            c == Change(name, EnumVariantRemoved, Breaking) && exists i :: 0 <= i < |before| && !Listed(after, before[i])
  {
    if before != [] {
      var n := |before| - 1;
      RemovedVariantFound(before[..n], after, name, c);
      assert forall i :: 0 <= i < n ==> before[..n][i] == before[i];
    }
  }

  lemma {:induction false} AddedVariantFound(before: seq<string>, after: seq<string>, name: string, c: Change)
    ensures c in AddedVariants(before, after, name) <==>
            c == Change(name, EnumVariantAdded, Additive) && exists i :: 0 <= i < |after| && !Listed(before, after[i])
  {
    if after != [] {
      var n := |after| - 1;
      AddedVariantFound(before, after[..n], name, c);
      assert forall i :: 0 <= i < n ==> after[..n][i] == after[i];
    }
  }

  lemma LimitsFound(before: Descriptor, after: Descriptor, name: string, c: Change)
    ensures c in ConstraintChanges(before, after, name) <==> FoundAmongLimits(before, after, name, c)
  {
  }

  lemma PresenceFound(before: Descriptor, after: Descriptor, name: string, c: Change)
    ensures c in PresenceChanges(before, after, name) <==>
            || (c == Change(name, TypeChanged, Breaking) && before.isNullable && !after.isNullable)
            || (c == Change(name, TypeChanged, Additive) && !before.isNullable && after.isNullable)
            || (c == Change(name, RequiredChanged, Breaking) && !Required(before) && Required(after))
            || (c == Change(name, RequiredChanged, ConditionallyCompatible) && Required(before) && !Required(after))
  {
  }

  lemma {:induction false} CommonFound(before: seq<Property>, after: seq<Property>, place: string, ignore: bool, c: Change)
    ensures c in CommonFields(before, after, place, ignore) <==>
            exists i :: 0 <= i < |before| && FoundIn(before[i], after, place, ignore, c)
    decreases before, 0
  {
    if before != [] {
      var n := |before| - 1;
      CommonFound(before[..n], after, place, ignore, c);
      FieldFound(before[n], after, place, ignore, c);
      assert forall i :: 0 <= i < n ==> before[..n][i] == before[i];
    }
  }

  lemma {:induction false} FieldFound(field: Property, after: seq<Property>, place: string, ignore: bool, c: Change)
    ensures c in CommonField(field, after, place, ignore) <==> FoundIn(field, after, place, ignore, c)
    decreases field, 0
  {
    if Owns(after, field.name) {
      DiffFinds(field.desc, Lookup(after, field.name), Below(place, field.name), ignore, c);
    }
  }

  lemma {:induction false} DetailsFound(before: Descriptor, after: Descriptor, place: string, ignore: bool, c: Change)
    requires before.kind == after.kind
    ensures c in DetailChanges(before, after, place, ignore) <==>
            || (before.kind == ObjectKind && FoundAmongFields(before.properties, after.properties, place, c))
            || (before.kind == EnumKind && FoundAmongVariants(before.enumValues, after.enumValues, Name(place), c))
            || ((before.kind == NumberKind || before.kind == StringKind) && FoundAmongLimits(before, after, Name(place), c))
            || (before.kind == ObjectKind && exists i :: 0 <= i < |before.properties| && FoundIn(before.properties[i], after.properties, place, ignore, c))
            || (before.kind == ArrayKind && before.arrayItem.Some? && after.arrayItem.Some?
                && Found(before.arrayItem.value, after.arrayItem.value, Name(place) + "[]", ignore, c))
    decreases before, 1
  {
    match before.kind
    case ObjectKind =>
      RemovedFound(before.properties, after.properties, place, c);
      AddedFound(before.properties, after.properties, place, c);
      CommonFound(before.properties, after.properties, place, ignore, c);
    case EnumKind =>
      RemovedVariantFound(before.enumValues, after.enumValues, Name(place), c);
      AddedVariantFound(before.enumValues, after.enumValues, Name(place), c);
    case ArrayKind =>
      if before.arrayItem.Some? && after.arrayItem.Some? {
        DiffFinds(before.arrayItem.value, after.arrayItem.value, Name(place) + "[]", ignore, c);
      }
    case NumberKind => LimitsFound(before, after, Name(place), c);
    case StringKind => LimitsFound(before, after, Name(place), c);
    case _ =>
  }

  /** A change is listed, with its path, kind and category, if and only if it is there to be found. */
  lemma {:induction false} DiffFinds(before: Descriptor, after: Descriptor, place: string, ignore: bool, c: Change)
    ensures c in Diff(before, after, place, ignore) <==> Found(before, after, place, ignore, c)
    decreases before, 2
  {
    if before.kind == after.kind {
      PresenceFound(before, after, Name(place), c);
      DetailsFound(before, after, place, ignore, c);
    }
  }

  // --- the verdicts ---

  /** Somewhere the comparison reaches, a required part may now be left out. */
  ghost predicate Relaxes(before: Descriptor, after: Descriptor)
    decreases before
  {
    before.kind == after.kind
    && (|| (Required(before) && !Required(after))
        || (before.kind == ObjectKind
            && exists i :: 0 <= i < |before.properties| && RelaxesIn(before.properties[i], after.properties))
        || (before.kind == ArrayKind && before.arrayItem.Some? && after.arrayItem.Some?
            && Relaxes(before.arrayItem.value, after.arrayItem.value)))
  }

  ghost predicate RelaxesIn(field: Property, after: seq<Property>)
    decreases field
  {
    Owns(after, field.name) && Relaxes(field.desc, Lookup(after, field.name))
  }

  ghost predicate FindsConditional(before: Descriptor, after: Descriptor, place: string, ignore: bool) {
    exists c: Change :: c.category == ConditionallyCompatible && Found(before, after, place, ignore, c)
  }

  lemma ConditionalFoundHere(before: Descriptor, after: Descriptor, place: string, ignore: bool, c: Change)
    requires c.category == ConditionallyCompatible
    ensures FoundHere(before, after, place, ignore, c) <==>
            before.kind == after.kind && Required(before) && !Required(after)
            && c == Change(Name(place), RequiredChanged, ConditionallyCompatible)
  {
  }

  lemma {:induction false} RelaxesFound(before: Descriptor, after: Descriptor, place: string, ignore: bool)
    requires Relaxes(before, after)
    ensures FindsConditional(before, after, place, ignore)
    decreases before
  {
    if Required(before) && !Required(after) {
      var c := Change(Name(place), RequiredChanged, ConditionallyCompatible);
      assert FoundHere(before, after, place, ignore, c);
      assert Found(before, after, place, ignore, c);
    } else if before.kind == ObjectKind {
      var i :| 0 <= i < |before.properties| && RelaxesIn(before.properties[i], after.properties);
      var field := before.properties[i];
      RelaxesFound(field.desc, Lookup(after.properties, field.name), Below(place, field.name), ignore);
      var c: Change :| c.category == ConditionallyCompatible && Found(field.desc, Lookup(after.properties, field.name), Below(place, field.name), ignore, c);
      assert FoundIn(field, after.properties, place, ignore, c);
      assert Found(before, after, place, ignore, c);
    } else {
      var item, item' := before.arrayItem.value, after.arrayItem.value;
      RelaxesFound(item, item', Name(place) + "[]", ignore);
      var c: Change :| c.category == ConditionallyCompatible && Found(item, item', Name(place) + "[]", ignore, c);
      assert Found(before, after, place, ignore, c);
    }
  }

  lemma {:induction false} FoundRelaxes(before: Descriptor, after: Descriptor, place: string, ignore: bool, c: Change)
    requires c.category == ConditionallyCompatible && Found(before, after, place, ignore, c)
    ensures Relaxes(before, after)
    decreases before
  {
    ConditionalFoundHere(before, after, place, ignore, c);
    if !FoundHere(before, after, place, ignore, c) {
      if before.kind == ObjectKind {
        var i :| 0 <= i < |before.properties| && FoundIn(before.properties[i], after.properties, place, ignore, c);
        var field := before.properties[i];
        FoundRelaxes(field.desc, Lookup(after.properties, field.name), Below(place, field.name), ignore, c);
        assert RelaxesIn(field, after.properties);
      } else {
        FoundRelaxes(before.arrayItem.value, after.arrayItem.value, Name(place) + "[]", ignore, c);
      }
    }
  }

  /** A diff reports a conditionally compatible change if and only if a required part became omittable. */
  lemma ConditionalIff(before: Descriptor, after: Descriptor, place: string, ignore: bool)
    ensures Reports(Diff(before, after, place, ignore), ConditionallyCompatible) <==> Relaxes(before, after)
  {
    var changes := Diff(before, after, place, ignore);
    if Reports(changes, ConditionallyCompatible) {
      var i :| 0 <= i < |changes| && changes[i].category == ConditionallyCompatible;
      DiffFinds(before, after, place, ignore, changes[i]);
      FoundRelaxes(before, after, place, ignore, changes[i]);
    }
    if Relaxes(before, after) {
      RelaxesFound(before, after, place, ignore);
      var c: Change :| c.category == ConditionallyCompatible && Found(before, after, place, ignore, c);
      DiffFinds(before, after, place, ignore, c);
      var i :| 0 <= i < |changes| && changes[i] == c;
    }
  }

  /** The whole comparison, from the root. */
  method DiffSchemaDescriptors(before: Descriptor, after: Descriptor, ignoreDescriptions: bool) returns (r: DiffResult)
    ensures r.changes == Diff(before, after, "", ignoreDescriptions)
    ensures r.isBreaking <==> !NonBreaking(before, after)
    ensures r.category == if !NonBreaking(before, after) then Breaking else if Relaxes(before, after) then ConditionallyCompatible else Additive
  {
    var differ := new SchemaDiffer(ignoreDescriptions);
    differ.CompareDescriptors(before, after, "");
    r := RollUp(differ.changes);
    VerdictMatchesChanges(before, after, "", ignoreDescriptions);
    ConditionalIff(before, after, "", ignoreDescriptions);
  }

  /** `assertCompatible`: the schemas are accepted unless the diff forbids them. */
  method AssertCompatible(before: Descriptor, after: Descriptor, allowConditional: bool) returns (r: Result<(), DiffResult>)
    ensures r.Ok? <==> NonBreaking(before, after) && (allowConditional || !Relaxes(before, after))
  {
    var diff := DiffSchemaDescriptors(before, after, false);
    if diff.isBreaking {
      return Err(diff);
    }
    if !allowConditional && diff.category == ConditionallyCompatible {
      return Err(diff);
    }
    return Ok(());
  }

  // --- one diff spelled out ---

  const COUNT := Plain(NumberKind).(min := Some(1.0))
  const LOOSE_COUNT := Plain(NumberKind).(min := Some(0.0), isOptional := true)
  const OLD_FIELDS := [Property("n", COUNT), Property("gone", Plain(BooleanKind))]
  const NEW_FIELDS := [Property("new", Plain(BooleanKind)), Property("n", LOOSE_COUNT)]

  lemma OneField(field: Property, others: seq<Property>, place: string, ignore: bool)
    ensures CommonFields([field], others, place, ignore) == CommonField(field, others, place, ignore)
    ensures RemovedFields([field], others, place) ==
            if KeySetHas(others, field.name) then [] else [Change(ChildPath(place, field.name), FieldRemoved, Breaking)]
    ensures AddedFields(others, [field], place) == if KeySetHas(others, field.name) then [] else [AddedField(field, place)]
  {
    assert [field][..0] == [];
    assert [] + CommonField(field, others, place, ignore) == CommonField(field, others, place, ignore);
  }

  lemma TwoFields(before: seq<Property>, after: seq<Property>, place: string, ignore: bool)
    requires |before| == 2 && |after| == 2
    ensures CommonFields(before, after, place, ignore) == CommonField(before[0], after, place, ignore) + CommonField(before[1], after, place, ignore)
    ensures RemovedFields(before, after, place) ==
            (if KeySetHas(after, before[0].name) then [] else [Change(ChildPath(place, before[0].name), FieldRemoved, Breaking)]) +
            (if KeySetHas(after, before[1].name) then [] else [Change(ChildPath(place, before[1].name), FieldRemoved, Breaking)])
    ensures AddedFields(before, after, place) ==
            (if KeySetHas(before, after[0].name) then [] else [AddedField(after[0], place)]) +
            (if KeySetHas(before, after[1].name) then [] else [AddedField(after[1], place)])
  {
    OneField(before[0], after, place, ignore);
    OneField(after[0], before, place, ignore);
    assert before[..1] == [before[0]] && after[..1] == [after[0]];
  }

  lemma FieldsSpelledOut()
    ensures RemovedFields(OLD_FIELDS, NEW_FIELDS, "in") == [Change("in.gone", FieldRemoved, Breaking)]
    ensures AddedFields(OLD_FIELDS, NEW_FIELDS, "in") == [Change("in.new", FieldAdded, Breaking)]
  {
    NamesSpelledOut();
    TwoFields(OLD_FIELDS, NEW_FIELDS, "in", false);
  }

  lemma NamesSpelledOut()
    ensures Owns(NEW_FIELDS, "n") && Owns(OLD_FIELDS, "n") && Lookup(NEW_FIELDS, "n") == LOOSE_COUNT
    ensures !KeySetHas(NEW_FIELDS, "gone") && !KeySetHas(OLD_FIELDS, "new")
    ensures ChildPath("in", "gone") == "in.gone" && ChildPath("in", "new") == "in.new" && ChildPath("in", "n") == "in.n"
  {
    assert NEW_FIELDS[1].name == "n" && OLD_FIELDS[0].name == "n";
    assert |"gone"| == 4 && |"new"| == 3 && |"n"| == 1;
  }

  lemma CommonSpelledOut()
    ensures CommonFields(OLD_FIELDS, NEW_FIELDS, "in", false) ==
            [Change("in.n", RequiredChanged, ConditionallyCompatible), Change("in.n", ConstraintRelaxed, Additive)]
  {
    NamesSpelledOut();
    TwoFields(OLD_FIELDS, NEW_FIELDS, "in", false);
    CountChanged();
    assert CommonField(OLD_FIELDS[1], NEW_FIELDS, "in", false) == [];
  }

  lemma CountChanged()
    ensures Diff(COUNT, LOOSE_COUNT, "in.n", false) ==
            [Change("in.n", RequiredChanged, ConditionallyCompatible), Change("in.n", ConstraintRelaxed, Additive)]
  {
  }

  /** One change per variant, the removed ones first: here the first and third are removed and the first new one is added. */
  lemma VariantsSpelledOut(before: seq<string>, after: seq<string>)
    requires |before| == 3 && !ValueSetHas(after, before[0]) && ValueSetHas(after, before[1]) && !ValueSetHas(after, before[2])
    requires |after| == 2 && !ValueSetHas(before, after[0]) && ValueSetHas(before, after[1])
    ensures Diff(Plain(EnumKind).(enumValues := before), Plain(EnumKind).(enumValues := after), "", false) ==
            [Change("$", EnumVariantRemoved, Breaking), Change("$", EnumVariantRemoved, Breaking), Change("$", EnumVariantAdded, Additive)]
  {
    RemovedOfThree(before, after);
    AddedOfTwo(after, before);
  }

  lemma RemovedOfThree(values: seq<string>, others: seq<string>)
    requires |values| == 3 && !ValueSetHas(others, values[0]) && ValueSetHas(others, values[1]) && !ValueSetHas(others, values[2])
    ensures RemovedVariants(values, others, "$") == [Change("$", EnumVariantRemoved, Breaking), Change("$", EnumVariantRemoved, Breaking)]
  {
    assert values[..1][..0] == [];
    assert values[..2][..1] == values[..1];
    assert RemovedVariants(values[..1], others, "$") == [Change("$", EnumVariantRemoved, Breaking)];
    assert RemovedVariants(values[..2], others, "$") == [Change("$", EnumVariantRemoved, Breaking)];
  }

  lemma AddedOfTwo(values: seq<string>, others: seq<string>)
    requires |values| == 2 && !ValueSetHas(others, values[0]) && ValueSetHas(others, values[1])
    ensures AddedVariants(others, values, "$") == [Change("$", EnumVariantAdded, Additive)]
  {
    assert values[..1][..0] == [];
    assert AddedVariants(others, values[..1], "$") == [Change("$", EnumVariantAdded, Additive)];
  }

  /** Lower bound, upper bound and pattern, in this order; losing an empty pattern is no change. */
  lemma LimitsSpelledOut()
    ensures var before := Plain(StringKind).(min := Some(1.0), max := Some(5.0), pattern := Some("a"));
            Diff(before, before.(min := Some(2.0), max := Some(6.0), pattern := None), "s", false) ==
              [Change("s", ConstraintTightened, Breaking), Change("s", ConstraintRelaxed, Additive), Change("s", ConstraintRelaxed, Additive)]
    ensures Diff(Plain(StringKind).(pattern := Some("")), Plain(StringKind), "s", false) == []
  {
  }

  /** The order of the list: the pair itself, then fields removed, fields added and common fields. */
  lemma DiffSpelledOut()
    ensures var before := Plain(ObjectKind).(description := Some("old"), properties := OLD_FIELDS);
            var after := Plain(ObjectKind).(isNullable := true, isOptional := true, properties := NEW_FIELDS);
            Diff(before, after, "in", false) ==
              [Change("in", DescriptionChanged, Additive),
               Change("in", RequiredChanged, ConditionallyCompatible), Change("in", TypeChanged, Additive),
               Change("in.gone", FieldRemoved, Breaking), Change("in.new", FieldAdded, Breaking),
               Change("in.n", RequiredChanged, ConditionallyCompatible), Change("in.n", ConstraintRelaxed, Additive)]
  {
    FieldsSpelledOut();
    CommonSpelledOut();
  }
}
