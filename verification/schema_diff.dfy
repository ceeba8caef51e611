/**
 * Schema descriptors and the changes a diff reports (schema-diff.ts).
 */
module Schemas {
  import opened Wrappers

  datatype Kind =
    | StringKind | NumberKind | BooleanKind | NullKind | UndefinedKind
    | ObjectKind | ArrayKind | EnumKind | UnionKind | DiscriminatedUnionKind
    | LiteralKind | RecordKind | AnyKind | UnknownKind

  /** JSON-like values that a schema accepts or rejects; `Missing` is an absent property. */
  datatype Value =
    | Missing
    | NullValue
    | BoolValue(b: bool)
    | NumValue(n: real)
    | StrValue(s: string)
    | ArrValue(items: seq<Value>)
    | ObjValue(fields: map<string, Value>)

  /** One entry of a `properties` record; the sequence keeps the record's key order. */
  datatype Property = Property(name: string, desc: Descriptor)

  datatype Descriptor = Descriptor(
    kind: Kind,
    isOptional: bool,
    isNullable: bool,
    hasDefault: bool,
    description: Option<string>,
    literalValue: Value,
    properties: seq<Property>,
    enumValues: seq<string>,
    unionMembers: seq<Descriptor>,
    arrayItem: Option<Descriptor>,
    min: Option<real>,
    max: Option<real>,
    pattern: Option<string>,
    isInt: bool)

  /** A required descriptor of a kind, with nothing else said about it. */
  function Plain(kind: Kind): Descriptor {
    Descriptor(kind, false, false, false, None, NullValue, [], [], [], None, None, None, None, false)
  }

  datatype Category = Additive | ConditionallyCompatible | Breaking

  datatype ChangeKind =
    | FieldAdded | FieldRemoved | TypeChanged | RequiredChanged
    | EnumVariantAdded | EnumVariantRemoved
    | ConstraintTightened | ConstraintRelaxed | DescriptionChanged

  datatype Change = Change(path: string, kind: ChangeKind, category: Category)

  /** A field that a caller may leave out. */
  predicate Omittable(d: Descriptor) {
    d.isOptional || d.hasDefault
  }

  predicate Owns(props: seq<Property>, name: string) {
    exists i :: 0 <= i < |props| && props[i].name == name
  }

  function Lookup(props: seq<Property>, name: string): (d: Descriptor)
    requires Owns(props, name)
    ensures exists i :: 0 <= i < |props| && props[i] == Property(name, d)
  {
    if props[0].name == name then
      assert props[0] == Property(name, props[0].desc);
      props[0].desc
    else
      assert forall i :: 1 <= i < |props| ==> props[1..][i - 1] == props[i];
      assert Owns(props[1..], name) by {
        var i :| 0 <= i < |props| && props[i].name == name;
        assert props[1..][i - 1].name == name;
      }
      Lookup(props[1..], name)
  }

  /** Record keys are unique, at every depth. */
  ghost predicate WellFormed(d: Descriptor) {
    && (forall i, j :: 0 <= i < j < |d.properties| ==> d.properties[i].name != d.properties[j].name)
    && (forall i :: 0 <= i < |d.properties| ==> WellFormed(d.properties[i].desc))
    && (d.arrayItem.Some? ==> WellFormed(d.arrayItem.value))
  }

  lemma LookupUnique(props: seq<Property>, i: nat)
    requires i < |props|
    requires forall j, k :: 0 <= j < k < |props| ==> props[j].name != props[k].name
    ensures Owns(props, props[i].name) && Lookup(props, props[i].name) == props[i].desc
  {
    assert Owns(props, props[i].name);
    var d := Lookup(props, props[i].name);
    var k :| 0 <= k < |props| && props[k] == Property(props[i].name, d);
    assert k == i;
  }

  /** The names every plain JavaScript object inherits from Object.prototype. */
  const INHERITED_NAMES: set<string> := {
    "constructor", "hasOwnProperty", "isPrototypeOf", "propertyIsEnumerable",
    "toLocaleString", "toString", "valueOf", "__proto__",
    "__defineGetter__", "__defineSetter__", "__lookupGetter__", "__lookupSetter__"
  }

  predicate Inherited(name: string) {
    name in INHERITED_NAMES
  }
}

/**
 * The comparer itself: `CompareDescriptors` appends to a change list in loops, and is
 * specified by the function `Diff`.
 */
module SchemaDiff {
  import opened Wrappers
  import opened Sequences
  import opened Schemas

  function PathOf(currentPath: string): string {
    if currentPath == "" then "$" else currentPath
  }

  function ChildPath(currentPath: string, key: string): string {
    if currentPath == "" then key else currentPath + "." + key
  }

  function DescriptionChanges(before: Option<string>, after: Option<string>, path: string, ignore: bool): seq<Change> {
    if !ignore && before != after then [Change(path, DescriptionChanged, Additive)] else []
  }

  function OptionalityChanges(before: Descriptor, after: Descriptor, path: string): seq<Change> {
    if Omittable(before) && !Omittable(after) then [Change(path, RequiredChanged, Breaking)]
    else if !Omittable(before) && Omittable(after) then [Change(path, RequiredChanged, ConditionallyCompatible)]
    else []
  }

  function NullabilityChanges(before: Descriptor, after: Descriptor, path: string): seq<Change> {
    if before.isNullable && !after.isNullable then [Change(path, TypeChanged, Breaking)]
    else if !before.isNullable && after.isNullable then [Change(path, TypeChanged, Additive)]
    else []
  }

  /** `keySet[key]` for a key set stored in a plain object: own keys, but inherited names too. */
  predicate KeySetHas(keys: seq<Property>, name: string) {
    Owns(keys, name) || Inherited(name)
  }

  predicate ValueSetHas(values: seq<string>, v: string) {
    v in values || Inherited(v)
  }

  function RemovedFields(before: seq<Property>, after: seq<Property>, currentPath: string): seq<Change> {
    if before == [] then [] else
      var last := before[|before| - 1];
      RemovedFields(before[..|before| - 1], after, currentPath) +
      if KeySetHas(after, last.name) then []
      else [Change(ChildPath(currentPath, last.name), FieldRemoved, Breaking)]
  }

  function AddedFields(before: seq<Property>, after: seq<Property>, currentPath: string): seq<Change> {
    if after == [] then [] else
      var last := after[|after| - 1];
      AddedFields(before, after[..|after| - 1], currentPath) +
      if KeySetHas(before, last.name) then []
      else [Change(ChildPath(currentPath, last.name), FieldAdded, if Omittable(last.desc) then Additive else Breaking)]
  }

  /** Comparing against an inherited member, which has neither a `type` nor a `description`. */
  function InheritedDiff(before: Descriptor, path: string, ignore: bool): seq<Change> {
    DescriptionChanges(before.description, None, path, ignore) + [Change(path, TypeChanged, Breaking)]
  }

  function CommonFields(before: seq<Property>, after: seq<Property>, currentPath: string, ignore: bool): seq<Change>
    decreases before, 0
  {
    if before == [] then [] else
      var last := before[|before| - 1];
      CommonFields(before[..|before| - 1], after, currentPath, ignore) + CommonField(last, after, currentPath, ignore)
  }

  function CommonField(field: Property, after: seq<Property>, currentPath: string, ignore: bool): seq<Change>
    decreases field, 0
  {
    if Owns(after, field.name) then Diff(field.desc, Lookup(after, field.name), ChildPath(currentPath, field.name), ignore)
    else if Inherited(field.name) then InheritedDiff(field.desc, PathOf(ChildPath(currentPath, field.name)), ignore)
    else []
  }

  /** The changes of one more field stand behind those of the fields in front of it. */
  lemma CommonFieldsStep(before: seq<Property>, i: nat, after: seq<Property>, currentPath: string, ignore: bool)
    requires i < |before|
    ensures CommonFields(before[..i + 1], after, currentPath, ignore) ==
            CommonFields(before[..i], after, currentPath, ignore) + CommonField(before[i], after, currentPath, ignore)
  {
    assert before[..i + 1][..i] == before[..i];
  }

  function RemovedVariants(before: seq<string>, after: seq<string>, path: string): seq<Change> {
    if before == [] then [] else
      var last := before[|before| - 1];
      RemovedVariants(before[..|before| - 1], after, path) +
      if ValueSetHas(after, last) then [] else [Change(path, EnumVariantRemoved, Breaking)]
  }

  function AddedVariants(before: seq<string>, after: seq<string>, path: string): seq<Change> {
    if after == [] then [] else
      var last := after[|after| - 1];
      AddedVariants(before, after[..|after| - 1], path) +
      if ValueSetHas(before, last) then [] else [Change(path, EnumVariantAdded, Additive)]
  }

  function MinChanges(before: Option<real>, after: Option<real>, path: string): seq<Change> {
    if before.Some? && after.Some? && after.value > before.value then [Change(path, ConstraintTightened, Breaking)]
    else if before.None? && after.Some? then [Change(path, ConstraintTightened, Breaking)]
    else if before.Some? && after.Some? && after.value < before.value then [Change(path, ConstraintRelaxed, Additive)]
    else []
  }

  function MaxChanges(before: Option<real>, after: Option<real>, path: string): seq<Change> {
    if before.Some? && after.Some? && after.value < before.value then [Change(path, ConstraintTightened, Breaking)]
    else if before.None? && after.Some? then [Change(path, ConstraintTightened, Breaking)]
    else if before.Some? && after.Some? && after.value > before.value then [Change(path, ConstraintRelaxed, Additive)]
    else []
  }

  /** The empty pattern is falsy, like an absent one. */
  predicate HasPattern(pattern: Option<string>) {
    pattern.Some? && pattern.value != ""
  }

  function PatternChanges(before: Option<string>, after: Option<string>, path: string): seq<Change> {
    if before == after then []
    else if HasPattern(before) && !HasPattern(after) then [Change(path, ConstraintRelaxed, Additive)]
    else if HasPattern(after) then [Change(path, ConstraintTightened, Breaking)]
    else []
  }

  /** What the comparer reports once the two kinds agree, one block per kind. */
  function DetailChanges(before: Descriptor, after: Descriptor, currentPath: string, ignore: bool): seq<Change>
    decreases before, 1
  {
    match before.kind
    case ObjectKind =>
      RemovedFields(before.properties, after.properties, currentPath) +
      AddedFields(before.properties, after.properties, currentPath) +
      CommonFields(before.properties, after.properties, currentPath, ignore)
    case EnumKind =>
      RemovedVariants(before.enumValues, after.enumValues, PathOf(currentPath)) +
      AddedVariants(before.enumValues, after.enumValues, PathOf(currentPath))
    case ArrayKind =>
      if before.arrayItem.Some? && after.arrayItem.Some? then
        Diff(before.arrayItem.value, after.arrayItem.value, PathOf(currentPath) + "[]", ignore)
      else []
    case NumberKind => ConstraintChanges(before, after, PathOf(currentPath))
    case StringKind => ConstraintChanges(before, after, PathOf(currentPath))
    case _ => []
  }

  function ConstraintChanges(before: Descriptor, after: Descriptor, path: string): seq<Change> {
    MinChanges(before.min, after.min, path) +
    MaxChanges(before.max, after.max, path) +
    PatternChanges(before.pattern, after.pattern, path)
  }

  function PresenceChanges(before: Descriptor, after: Descriptor, path: string): seq<Change> {
    OptionalityChanges(before, after, path) + NullabilityChanges(before, after, path)
  }

  function Diff(before: Descriptor, after: Descriptor, currentPath: string, ignore: bool): seq<Change>
    decreases before, 2
  {
    var path := PathOf(currentPath);
    DescriptionChanges(before.description, after.description, path, ignore) +
    if before.kind != after.kind then [Change(path, TypeChanged, Breaking)]
    else PresenceChanges(before, after, path) + DetailChanges(before, after, currentPath, ignore)
  }

  datatype Summary = Summary(total: nat, additive: nat, conditional: nat, breaking: nat)

  datatype DiffResult = DiffResult(category: Category, isBreaking: bool, changes: seq<Change>, summary: Summary)

  ghost predicate Reports(changes: seq<Change>, category: Category) {
    exists i :: 0 <= i < |changes| && changes[i].category == category
  }

  function CountOf(changes: seq<Change>, category: Category): nat {
    if changes == [] then 0
    else CountOf(changes[..|changes| - 1], category) + if changes[|changes| - 1].category == category then 1 else 0
  }

  lemma {:induction false} CountIsPositive(changes: seq<Change>, category: Category)
    ensures CountOf(changes, category) > 0 <==> Reports(changes, category)
  {
    if changes != [] {
      var rest := changes[..|changes| - 1];
      CountIsPositive(rest, category);
      if Reports(rest, category) {
        var i :| 0 <= i < |rest| && rest[i].category == category;
        assert changes[i].category == category;
      }
      if Reports(changes, category) && changes[|changes| - 1].category != category {
        var i :| 0 <= i < |changes| && changes[i].category == category;
        assert rest[i].category == category;
      }
    }
  }

  class SchemaDiffer {
    var changes: seq<Change>
    const ignoreDescriptions: bool

    constructor (ignoreDescriptions: bool)
      ensures changes == [] && this.ignoreDescriptions == ignoreDescriptions
    {
      this.changes := [];
      this.ignoreDescriptions := ignoreDescriptions;
    }

    /** Reports every difference, appending to `changes` in the order the checks run. */
    method CompareDescriptors(before: Descriptor, after: Descriptor, currentPath: string)
      modifies this
      ensures changes == old(changes) + Diff(before, after, currentPath, ignoreDescriptions)
      decreases before, 2
    {
      var path := PathOf(currentPath);
      ghost var start := changes;
      if !ignoreDescriptions && before.description != after.description {
        changes := changes + [Change(path, DescriptionChanged, Additive)];
      }
      ghost var described := DescriptionChanges(before.description, after.description, path, ignoreDescriptions);
      assert changes == start + described;
      if before.kind != after.kind {
        changes := changes + [Change(path, TypeChanged, Breaking)];
        Associate(start, described, [Change(path, TypeChanged, Breaking)]);
        return;
      }
      ComparePresence(before, after, path);
      CompareDetails(before, after, currentPath);
      ghost var presence := PresenceChanges(before, after, path);
      ghost var details := DetailChanges(before, after, currentPath, ignoreDescriptions);
      Associate(start, described, presence);
      Associate(start, described + presence, details);
      Associate(described, presence, details);
    }

    method ComparePresence(before: Descriptor, after: Descriptor, path: string)
      modifies this
      ensures changes == old(changes) + PresenceChanges(before, after, path)
    {
      if Omittable(before) && !Omittable(after) {
        changes := changes + [Change(path, RequiredChanged, Breaking)];
      } else if !Omittable(before) && Omittable(after) {
        changes := changes + [Change(path, RequiredChanged, ConditionallyCompatible)];
      }
      if before.isNullable && !after.isNullable {
        changes := changes + [Change(path, TypeChanged, Breaking)];
      } else if !before.isNullable && after.isNullable {
        changes := changes + [Change(path, TypeChanged, Additive)];
      }
    }

    method CompareDetails(before: Descriptor, after: Descriptor, currentPath: string)
      requires before.kind == after.kind
      modifies this
      ensures changes == old(changes) + DetailChanges(before, after, currentPath, ignoreDescriptions)
      decreases before, 1
    {
      var path := PathOf(currentPath);
      if before.kind == ObjectKind {
        CompareProperties(before.properties, after.properties, currentPath);
      }
      if before.kind == EnumKind {
        CompareVariants(before.enumValues, after.enumValues, path);
      }
      if before.kind == ArrayKind && before.arrayItem.Some? && after.arrayItem.Some? {
        CompareDescriptors(before.arrayItem.value, after.arrayItem.value, path + "[]");
      }
      if before.kind == NumberKind || before.kind == StringKind {
        CompareConstraints(before, after, path);
      }
    }

    method CompareConstraints(before: Descriptor, after: Descriptor, path: string)
      modifies this
      ensures changes == old(changes) + ConstraintChanges(before, after, path)
    {
      ghost var start := changes;
      if before.min.Some? && after.min.Some? && after.min.value > before.min.value {
        changes := changes + [Change(path, ConstraintTightened, Breaking)];
      } else if before.min.None? && after.min.Some? {
        changes := changes + [Change(path, ConstraintTightened, Breaking)];
      } else if before.min.Some? && after.min.Some? && after.min.value < before.min.value {
        changes := changes + [Change(path, ConstraintRelaxed, Additive)];
      }
      ghost var mins := MinChanges(before.min, after.min, path);
      assert changes == start + mins;
      if before.max.Some? && after.max.Some? && after.max.value < before.max.value {
        changes := changes + [Change(path, ConstraintTightened, Breaking)];
      } else if before.max.None? && after.max.Some? {
        changes := changes + [Change(path, ConstraintTightened, Breaking)];
      } else if before.max.Some? && after.max.Some? && after.max.value > before.max.value {
        changes := changes + [Change(path, ConstraintRelaxed, Additive)];
      }
      ghost var maxs := MaxChanges(before.max, after.max, path);
      assert changes == (start + mins) + maxs;
      if before.pattern != after.pattern {
        if HasPattern(before.pattern) && !HasPattern(after.pattern) {
          changes := changes + [Change(path, ConstraintRelaxed, Additive)];
        } else if !HasPattern(before.pattern) && HasPattern(after.pattern) {
          changes := changes + [Change(path, ConstraintTightened, Breaking)];
        } else if HasPattern(before.pattern) && HasPattern(after.pattern) {
          changes := changes + [Change(path, ConstraintTightened, Breaking)];
        }
      }
      assert changes == ((start + mins) + maxs) + PatternChanges(before.pattern, after.pattern, path);
      Associate(start, mins, maxs);
      Associate(start, mins + maxs, PatternChanges(before.pattern, after.pattern, path));
    }

    method CompareProperties(beforeProps: seq<Property>, afterProps: seq<Property>, currentPath: string)
      modifies this
      ensures changes == old(changes) +
                         (RemovedFields(beforeProps, afterProps, currentPath) +
                          AddedFields(beforeProps, afterProps, currentPath) +
                          CommonFields(beforeProps, afterProps, currentPath, ignoreDescriptions))
      decreases beforeProps, 1
    {
      ghost var start := changes;
      ghost var removed := RemovedFields(beforeProps, afterProps, currentPath);
      for i := 0 to |beforeProps|
        invariant changes == start + RemovedFields(beforeProps[..i], afterProps, currentPath)
      {
        assert beforeProps[..i + 1][..i] == beforeProps[..i];
        if !KeySetHas(afterProps, beforeProps[i].name) {
          changes := changes + [Change(ChildPath(currentPath, beforeProps[i].name), FieldRemoved, Breaking)];
        }
      }
      assert beforeProps[..|beforeProps|] == beforeProps;
      assert changes == start + removed;

      ghost var added := AddedFields(beforeProps, afterProps, currentPath);
      for i := 0 to |afterProps|
        invariant changes == (start + removed) + AddedFields(beforeProps, afterProps[..i], currentPath)
      {
        assert afterProps[..i + 1][..i] == afterProps[..i];
        if !KeySetHas(beforeProps, afterProps[i].name) {
          var isReq := !Omittable(afterProps[i].desc);
          changes := changes + [Change(ChildPath(currentPath, afterProps[i].name), FieldAdded, if isReq then Breaking else Additive)];
        }
      }
      assert afterProps[..|afterProps|] == afterProps;
      Associate(start, removed, added);
      assert changes == start + (removed + added);

      CompareCommon(beforeProps, afterProps, currentPath);
      Associate(start, removed + added, CommonFields(beforeProps, afterProps, currentPath, ignoreDescriptions));
    }

    method CompareCommon(beforeProps: seq<Property>, afterProps: seq<Property>, currentPath: string)
      modifies this
      ensures changes == old(changes) + CommonFields(beforeProps, afterProps, currentPath, ignoreDescriptions)
      decreases beforeProps, 0
    {
      ghost var start := changes;
      for i := 0 to |beforeProps|
        invariant changes == start + CommonFields(beforeProps[..i], afterProps, currentPath, ignoreDescriptions)
      {
        ghost var done := CommonFields(beforeProps[..i], afterProps, currentPath, ignoreDescriptions);
        CommonFieldsStep(beforeProps, i, afterProps, currentPath, ignoreDescriptions);
        var key := beforeProps[i].name;
        if Owns(afterProps, key) {
          CompareDescriptors(beforeProps[i].desc, Lookup(afterProps, key), ChildPath(currentPath, key));
          Associate(start, done, Diff(beforeProps[i].desc, Lookup(afterProps, key), ChildPath(currentPath, key), ignoreDescriptions));
        } else if Inherited(key) {
          ghost var inherited := InheritedDiff(beforeProps[i].desc, PathOf(ChildPath(currentPath, key)), ignoreDescriptions);
          changes := changes + InheritedDiff(beforeProps[i].desc, PathOf(ChildPath(currentPath, key)), ignoreDescriptions);
          Associate(start, done, inherited);
        }
      }
      assert beforeProps[..|beforeProps|] == beforeProps;
    }

    method CompareVariants(beforeVals: seq<string>, afterVals: seq<string>, path: string)
      modifies this
      ensures changes == old(changes) + (RemovedVariants(beforeVals, afterVals, path) + AddedVariants(beforeVals, afterVals, path))
    {
      ghost var start := changes;
      for i := 0 to |beforeVals|
        invariant changes == start + RemovedVariants(beforeVals[..i], afterVals, path)
      {
        assert beforeVals[..i + 1][..i] == beforeVals[..i];
        if !ValueSetHas(afterVals, beforeVals[i]) {
          changes := changes + [Change(path, EnumVariantRemoved, Breaking)];
        }
      }
      assert beforeVals[..|beforeVals|] == beforeVals;
      ghost var afterRemoved := changes;
      for i := 0 to |afterVals|
        invariant changes == afterRemoved + AddedVariants(beforeVals, afterVals[..i], path)
      {
        assert afterVals[..i + 1][..i] == afterVals[..i];
        if !ValueSetHas(beforeVals, afterVals[i]) {
          changes := changes + [Change(path, EnumVariantAdded, Additive)];
        }
      }
      assert afterVals[..|afterVals|] == afterVals;
    }
  }

  lemma CountPrefix(changes: seq<Change>, i: nat, category: Category)
    requires i < |changes|
    ensures CountOf(changes[..i + 1], category) == CountOf(changes[..i], category) + if changes[i].category == category then 1 else 0
  {
    assert changes[..i + 1][..i] == changes[..i];
  }

  /** The category roll-up: one pass of counters over the change list. */
  method RollUp(changes: seq<Change>) returns (r: DiffResult)
    ensures r.changes == changes
    ensures r.isBreaking <==> Reports(changes, Breaking)
    ensures r.category == Breaking <==> Reports(changes, Breaking)
    ensures r.category == Additive <==> !Reports(changes, Breaking) && !Reports(changes, ConditionallyCompatible)
    ensures r.summary.breaking == CountOf(changes, Breaking)
    ensures r.summary.conditional == CountOf(changes, ConditionallyCompatible)
    ensures r.summary.additive == CountOf(changes, Additive)
    ensures r.summary.total == |changes| == r.summary.breaking + r.summary.conditional + r.summary.additive
  {
    var breakingCount, conditionalCount, additiveCount: nat := 0, 0, 0;
    for i := 0 to |changes|
      invariant breakingCount == CountOf(changes[..i], Breaking)
      invariant conditionalCount == CountOf(changes[..i], ConditionallyCompatible)
      invariant additiveCount == CountOf(changes[..i], Additive)
      invariant breakingCount + conditionalCount + additiveCount == i
    {
      CountPrefix(changes, i, Breaking);
      CountPrefix(changes, i, ConditionallyCompatible);
      CountPrefix(changes, i, Additive);
      match changes[i].category
      case Breaking => breakingCount := breakingCount + 1;
      case ConditionallyCompatible => conditionalCount := conditionalCount + 1;
      case Additive => additiveCount := additiveCount + 1;
    }
    assert changes[..|changes|] == changes;
    CountIsPositive(changes, Breaking);
    CountIsPositive(changes, ConditionallyCompatible);
    var category :=
      if breakingCount > 0 then Breaking
      else if conditionalCount > 0 then ConditionallyCompatible
      else Additive;
    r := DiffResult(category, breakingCount > 0, changes, Summary(|changes|, additiveCount, conditionalCount, breakingCount));
  }
}
