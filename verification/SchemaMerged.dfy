/** What the merged schema is (arslan/llm/tool_schema.py, `_same_field` and `_merge_top`): merging loosens no further
    than joining the branches takes. */
module SchemaMerged {
  import opened Wrappers
  import opened Json
  import opened SchemaInline
  import opened SchemaMeaning
  import opened SchemaMerge
  import opened SchemaTop

  // ---------------------------------------------------------------------------
  // One field
  // ---------------------------------------------------------------------------

  /** `inst` is the constant the shape names, or one of the values its enum lists. */
  ghost predicate Lists(shape: Json, inst: Json) {
    shape.Obj? &&
    match Get(shape.fields, "const")
    case Some(value) => Eq(inst, value, true)
    case None =>
      match Get(shape.fields, "enum")
      case Some(Arr(items)) => exists k :: 0 <= k < |items| && Eq(inst, items[k], true)
      case _ => false
  }

  /** The shape allows `inst`, or it says only which values there are and `inst` is one of them. */
  ghost predicate Offers(shape: Json, inst: Json) {
    Allows(shape, inst) || (OnlyValues(shape) && Lists(shape, inst))
  }

  /** Whatever the merged field allows, one of the shapes offers. */
  lemma SameFieldTight(shapes: seq<Json>, inst: Json) returns (i: nat)
    requires shapes != [] && SameField(shapes).Some? && Allows(SameField(shapes).value, inst)
    ensures i < |shapes| && Offers(shapes[i], inst)
  {
    var j := DistinctTight(Deduped(shapes), SameField(shapes).value, inst);
    DedupedFrom(shapes);
    assert Deduped(shapes)[j] in shapes;
    i :| 0 <= i < |shapes| && shapes[i] == Deduped(shapes)[j];
  }

  lemma DistinctTight(distinct: seq<Json>, merged: Json, inst: Json) returns (j: nat)
    requires distinct != [] && Allows(merged, inst)
    requires
      || (|distinct| == 1 && merged == distinct[0])
      || merged == Obj([Field("anyOf", Arr(distinct))])
      || (&& (forall k :: 0 <= k < |distinct| ==> OnlyValues(distinct[k]))
          && merged == EnumOf(Deduped(AllValues(distinct)), CommonKind(distinct)))
    ensures j < |distinct| && Offers(distinct[j], inst)
  {
    if |distinct| == 1 && merged == distinct[0] {
      j := 0;
    } else if merged == Obj([Field("anyOf", Arr(distinct))]) {
      OneField(Field("anyOf", Arr(distinct)), inst);
      SomeCounted(distinct, inst);
      j :| 0 <= j < |distinct| && Allows(distinct[j], inst);
    } else {
      var value := EnumOffers(Deduped(AllValues(distinct)), CommonKind(distinct), inst);
      DedupedFrom(AllValues(distinct));
      j := ValueListed(distinct, value);
      ListedValue(distinct[j], value, inst);
    }
  }

  lemma EnumOffers(values: seq<Json>, kind: Option<Json>, inst: Json) returns (value: Json)
    requires Allows(EnumOf(values, kind), inst)
    ensures value in values && Eq(inst, value, true)
  {
    var fields := EnumOf(values, kind).fields;
    assert fields[0] == Field("enum", Arr(values));
    AllowsField(fields, 0, inst);
    var k :| 0 <= k < |values| && Eq(inst, values[k], true);
    value := values[k];
  }

  lemma {:induction false} ValueListed(shapes: seq<Json>, value: Json) returns (j: nat)
    requires value in AllValues(shapes)
    ensures j < |shapes| && value in Values(shapes[j])
  {
    if value in Values(shapes[|shapes| - 1]) {
      j := |shapes| - 1;
    } else {
      j := ValueListed(shapes[..|shapes| - 1], value);
    }
  }

  lemma ListedValue(shape: Json, value: Json, inst: Json)
    requires value in Values(shape) && Eq(inst, value, true)
    ensures Lists(shape, inst)
  {
    if Get(shape.fields, "const").None? {
      var items := Get(shape.fields, "enum").value.items;
      var k :| 0 <= k < |items| && items[k] == value;
    }
  }

  /** Shapes that only list values, each by a constant or by an enum, all of one type or all of none. */
  ghost predicate Agreeing(shapes: seq<Json>, kind: Option<Json>) {
    (kind.Some? ==> kind.value.Str?) && forall i :: 0 <= i < |shapes| ==> OneSort(shapes[i], kind)
  }

  /** Merging such shapes neither adds nor loses anything. */
  lemma MergedExactly(shapes: seq<Json>, kind: Option<Json>, inst: Json)
    requires shapes != [] && Mergeable(shapes) && Agreeing(shapes, kind) && SameField(shapes).Some?
    ensures Allows(SameField(shapes).value, inst) <==> exists i :: 0 <= i < |shapes| && Allows(shapes[i], inst)
  {
    if i :| 0 <= i < |shapes| && Allows(shapes[i], inst) {
      SameFieldLoosens(shapes, i, inst);
    }
    if Allows(SameField(shapes).value, inst) {
      var i := NothingAdded(shapes, kind, inst);
    }
  }

  lemma NothingAdded(shapes: seq<Json>, kind: Option<Json>, inst: Json) returns (i: nat)
    requires shapes != [] && AllWellKeyed(shapes) && Agreeing(shapes, kind) && SameField(shapes).Some?
    requires Allows(SameField(shapes).value, inst)
    ensures i < |shapes| && Allows(shapes[i], inst)
  {
    i := SameFieldTight(shapes, inst);
    if kind.Some? { KindKept(shapes, kind, inst); }
    FromAgreeing(shapes, kind, i);
    ListedIsAllowed(shapes[i], kind, inst);
  }

  ghost predicate OneSort(shape: Json, kind: Option<Json>) {
    && OnlyValues(shape) && Get(shape.fields, "type") == kind
    && !(Has(shape.fields, "const") && Has(shape.fields, "enum"))
  }

  lemma FromAgreeing(shapes: seq<Json>, kind: Option<Json>, i: nat)
    requires i < |shapes| && AllWellKeyed(shapes) && Agreeing(shapes, kind)
    ensures OneSort(shapes[i], kind) && UniqueKeys(shapes[i].fields)
  {
    assert WellKeyed(shapes[i]);
  }

  lemma KindsAgree(shapes: seq<Json>, kind: Option<Json>)
    requires shapes != [] && Agreeing(shapes, kind)
    ensures var distinct := Deduped(shapes);
      distinct != [] && forall k :: 0 <= k < |distinct| ==> OnlyValues(distinct[k]) && Kind(distinct[k]) == kind
  {
    var distinct := Deduped(shapes);
    DedupedFrom(shapes);
    forall k | 0 <= k < |distinct| ensures OneSort(distinct[k], kind) {
      assert distinct[k] in shapes;
      var i :| 0 <= i < |shapes| && shapes[i] == distinct[k];
    }
  }

  lemma KindKept(shapes: seq<Json>, kind: Option<Json>, inst: Json)
    requires shapes != [] && Agreeing(shapes, kind) && SameField(shapes).Some?
    requires Allows(SameField(shapes).value, inst) && kind.Some?
    ensures AcceptsField(Field("type", kind.value), inst, map[], 0)
  {
    KindsAgree(shapes, kind);
    KindOfMerged(Deduped(shapes), SameField(shapes).value, kind.value, inst);
  }

  lemma KindOfMerged(distinct: seq<Json>, merged: Json, kind: Json, inst: Json)
    requires distinct != [] && kind.Str? && Allows(merged, inst)
    requires forall k :: 0 <= k < |distinct| ==> OnlyValues(distinct[k]) && Kind(distinct[k]) == Some(kind)
    requires merged
      == if |distinct| == 1 then distinct[0] else EnumOf(Deduped(AllValues(distinct)), CommonKind(distinct))
    ensures AcceptsField(Field("type", kind), inst, map[], 0)
  {
    if |distinct| == 1 {
      KindAllows(distinct[0], kind, inst);
    } else {
      var fields := merged.fields;
      assert CommonKind(distinct) == Some(kind) && fields[1] == Field("type", kind);
      AllowsField(fields, 1, inst);
    }
  }

  lemma ListedIsAllowed(shape: Json, kind: Option<Json>, inst: Json)
    requires OneSort(shape, kind) && UniqueKeys(shape.fields) && Offers(shape, inst)
    requires kind.Some? ==> AcceptsField(Field("type", kind.value), inst, map[], 0)
    ensures Allows(shape, inst)
  {
    if Lists(shape, inst) {
      forall i: nat | i < |shape.fields| ensures AcceptsField(shape.fields[i], inst, map[], 0) {
        GetAt(shape.fields, i);
      }
    }
  }

  // ---------------------------------------------------------------------------
  // Where the shapes come from
  // ---------------------------------------------------------------------------

  /** The schema's own properties, or some branch's, describe `name` so. */
  ghost predicate Describes(fields: seq<Field>, name: string, sub: Json) {
    || Get(PropertiesOf(fields), name) == Some(sub)
    || exists b :: b in AllBranches(fields) && Get(PropertiesOf(b), name) == Some(sub)
  }

  ghost predicate UniqueProperties(branches: seq<seq<Field>>) {
    forall b :: b in branches ==> UniqueKeys(PropertiesOf(b))
  }

  lemma ChildWellKeyed(fields: seq<Field>, key: string)
    requires WellKeyed(Obj(fields)) && Has(fields, key)
    ensures WellKeyed(Get(fields, key).value)
  {
    var i := GotAt(fields, key);
  }

  lemma PropertiesUnique(fields: seq<Field>)
    requires WellKeyed(Obj(fields))
    ensures UniqueKeys(PropertiesOf(fields))
  {
    if Has(fields, "properties") { ChildWellKeyed(fields, "properties"); }
  }

  lemma BranchesUnique(fields: seq<Field>)
    requires WellKeyed(Obj(fields))
    ensures UniqueProperties(AllBranches(fields))
  {
    forall b | b in AllBranches(fields) ensures UniqueKeys(PropertiesOf(b)) {
      var key :=
        if b in Branches(fields, "anyOf") then "anyOf" else if b in Branches(fields, "oneOf") then "oneOf" else "allOf";
      assert b in Branches(fields, key) && Combined(fields, key);
      ChildWellKeyed(fields, key);
      var items := Get(fields, key).value.items;
      assert Obj(b) in items;
      var i :| 0 <= i < |items| && items[i] == Obj(b);
      assert WellKeyed(items[i]);
      PropertiesUnique(b);
    }
  }

  lemma {:induction false} AddPropertiesFrom(shapes: seq<Shape>, props: seq<Field>, name: string, sub: Json)
    requires UniqueNames(shapes) && UniqueKeys(props) && sub in SubsOf(AddProperties(shapes, props), name)
    ensures sub in SubsOf(shapes, name) || Get(props, name) == Some(sub)
    decreases |props|
  {
    if props != [] {
      var added := AddShape(shapes, props[0].key, props[0].value);
      AddShapeFacts(shapes, props[0].key, props[0].value, name);
      AddPropertiesFrom(added, props[1..], name, sub);
      if Get(props[1..], name) == Some(sub) {
        var i := GotAt(props[1..], name);
        GetAt(props, i + 1);
      }
    }
  }

  lemma {:induction false} AddBranchesFrom(shapes: seq<Shape>, branches: seq<seq<Field>>, name: string, sub: Json)
    requires UniqueNames(shapes) && UniqueProperties(branches) && sub in SubsOf(AddBranches(shapes, branches), name)
    ensures sub in SubsOf(shapes, name) || exists b :: b in branches && Get(PropertiesOf(b), name) == Some(sub)
    decreases |branches|
  {
    if branches != [] {
      var first := branches[0];
      assert branches == [first] + branches[1..];
      AddPropertiesFacts(shapes, PropertiesOf(first), name);
      AddBranchesFrom(AddProperties(shapes, PropertiesOf(first)), branches[1..], name, sub);
      if sub in SubsOf(AddProperties(shapes, PropertiesOf(first)), name) {
        AddPropertiesFrom(shapes, PropertiesOf(first), name, sub);
        assert first in branches;
      }
    }
  }

  /** The shapes collected under a name are exactly its descriptions. */
  lemma SubsAreDescriptions(fields: seq<Field>, name: string, sub: Json)
    requires WellKeyed(Obj(fields))
    ensures sub in SubsOf(AllShapes(fields), name) <==> Describes(fields, name, sub)
  {
    AllShapesFacts(fields, name);
    var own := AddProperties([], PropertiesOf(fields));
    AddPropertiesFacts([], PropertiesOf(fields), name);
    PropertiesUnique(fields);
    BranchesUnique(fields);
    if sub in SubsOf(AllShapes(fields), name) {
      AddBranchesFrom(own, AllBranches(fields), name, sub);
      if sub in SubsOf(own, name) { AddPropertiesFrom([], PropertiesOf(fields), name, sub); }
    }
  }

  lemma {:induction false} NamedHasSubs(shapes: seq<Shape>, name: string)
    requires SubsOf(shapes, name) != []
    ensures Named(shapes, name)
  {
    if shapes[0].name != name {
      NamedHasSubs(shapes[1..], name);
      var i :| 0 <= i < |shapes| - 1 && shapes[1..][i].name == name;
      assert shapes[i + 1].name == name;
    }
  }

  // ---------------------------------------------------------------------------
  // The merged schema
  // ---------------------------------------------------------------------------

  /** `out` is what the combiners of `fields` are merged into. */
  ghost predicate Merges(fields: seq<Field>, out: seq<Field>) {
    && (Combined(fields, "anyOf") || Combined(fields, "oneOf") || Combined(fields, "allOf"))
    && MergeTop(fields) == Some(out)
  }

  lemma MergedIsRebuilt(fields: seq<Field>, out: seq<Field>) returns (props: seq<Field>)
    requires Merges(fields, out)
    ensures MergeShapes(AllShapes(fields)) == Some(props) && out == Rebuilt(fields, props, AllRequired(fields))
  {
    props := MergeShapes(AllShapes(fields)).value;
  }

  lemma {:induction false} PutHas(fields: seq<Field>, f: Field)
    ensures Get(Put(fields, f), f.key) == Some(f.value)
  {
    if fields != [] && fields[0].key != f.key { PutHas(fields[1..], f); }
  }

  lemma GetFirst(f: Field, rest: seq<Field>, key: string)
    ensures Get([f] + rest, key) == if f.key == key then Some(f.value) else Get(rest, key)
  {
    assert ([f] + rest)[1..] == rest;
  }

  lemma {:induction false} WithoutGet(fields: seq<Field>, keys: seq<string>, key: string)
    ensures Get(Without(fields, keys), key) == if key in keys then None else Get(fields, key)
  {
    if fields != [] {
      var first, rest := fields[0], fields[1..];
      assert fields == [first] + rest;
      WithoutGet(rest, keys, key);
      GetFirst(first, rest, key);
      GetFirst(first, Without(rest, keys), key);
      assert first.key in keys ==> [] + Without(rest, keys) == Without(rest, keys);
    }
  }

  lemma PutGets(fields: seq<Field>, f: Field, key: string)
    ensures Get(Put(fields, f), key) == if key == f.key then Some(f.value) else Get(fields, key)
  {
    if key == f.key { PutHas(fields, f); } else { PutGet(fields, f, key); }
  }

  lemma TwoPutsGet(base: seq<Field>, a: Field, b: Field, key: string)
    requires a.key != b.key
    ensures Get(Put(Put(base, a), b), key) ==
      if key == b.key then Some(b.value) else if key == a.key then Some(a.value) else Get(base, key)
  {
    PutGets(base, a, key);
    PutGets(Put(base, a), b, key);
  }

  const KIND := Field("type", Str("object"))

  ghost function BeforeRequired(fields: seq<Field>, props: seq<Field>): seq<Field> {
    Put(Put(Without(fields, COMBINERS), KIND), Field("properties", Obj(props)))
  }

  lemma BeforeRequiredGets(fields: seq<Field>, props: seq<Field>, key: string)
    ensures Get(BeforeRequired(fields, props), key) ==
      if key == "properties" then Some(Obj(props)) else if key == "type" then Some(Str("object"))
      else if key in COMBINERS then None else Get(fields, key)
  {
    TwoPutsGet(Without(fields, COMBINERS), KIND, Field("properties", Obj(props)), key);
    WithoutGet(fields, COMBINERS, key);
  }

  lemma RebuiltGets(fields: seq<Field>, props: seq<Field>, required: seq<Json>, key: string)
    ensures Get(Rebuilt(fields, props, required), key) ==
      if key == "required" then (if required == [] then None else Some(Arr(required)))
      else Get(BeforeRequired(fields, props), key)
  {
    var before := BeforeRequired(fields, props);
    if required == [] {
      WithoutGet(before, ["required"], key);
    } else {
      PutGets(before, Field("required", Arr(required)), key);
    }
  }

  lemma RebuiltProperties(fields: seq<Field>, props: seq<Field>, required: seq<Json>)
    ensures Get(Rebuilt(fields, props, required), "properties") == Some(Obj(props))
    ensures PropertiesOf(Rebuilt(fields, props, required)) == props
  {
    RebuiltGets(fields, props, required, "properties");
    BeforeRequiredGets(fields, props, "properties");
  }

  lemma RebuiltElsewhere(fields: seq<Field>, props: seq<Field>, required: seq<Json>, key: string)
    requires key !in {"properties", "required"}
    ensures Get(Rebuilt(fields, props, required), key) ==
      if key == "type" then Some(Str("object")) else if key in COMBINERS then None else Get(fields, key)
  {
    RebuiltGets(fields, props, required, key);
    BeforeRequiredGets(fields, props, key);
  }

  /** The merged schema has no combiner left, it describes an object, and whatever else the schema says stays. */
  lemma MergedIsAnObject(fields: seq<Field>, out: seq<Field>, key: string)
    requires Merges(fields, out) && key !in {"properties", "required"}
    ensures Get(out, key) ==
      if key == "type" then Some(Str("object")) else if key in COMBINERS then None else Get(fields, key)
  {
    var props := MergedIsRebuilt(fields, out);
    RebuiltElsewhere(fields, props, AllRequired(fields), key);
  }

  lemma MergedProperties(fields: seq<Field>, out: seq<Field>) returns (props: seq<Field>)
    requires Merges(fields, out)
    ensures Get(out, "properties") == Some(Obj(props)) && PropertiesOf(out) == props
    ensures MergeShapes(AllShapes(fields)) == Some(props)
  {
    props := MergedIsRebuilt(fields, out);
    RebuiltProperties(fields, props, AllRequired(fields));
  }

  /** Its properties are exactly those that the schema itself or one of its branches mentions. */
  lemma MergedMentions(fields: seq<Field>, out: seq<Field>, name: string)
    requires Merges(fields, out) && WellKeyed(Obj(fields))
    ensures Get(out, "properties") == Some(Obj(PropertiesOf(out))) && UniqueKeys(PropertiesOf(out))
    ensures Has(PropertiesOf(out), name) <==> exists sub :: Describes(fields, name, sub)
  {
    var props := MergedProperties(fields, out);
    MergedNames(AllShapes(fields), name);
    AllShapesFacts(fields, name);
    NamedIffDescribed(fields, name);
  }

  lemma NamedIffDescribed(fields: seq<Field>, name: string)
    requires MergeShapes(AllShapes(fields)).Some? && WellKeyed(Obj(fields))
    ensures Named(AllShapes(fields), name) <==> exists sub :: Describes(fields, name, sub)
  {
    AllShapesFacts(fields, name);
    if Named(AllShapes(fields), name) {
      var sub := NamedIsDescribed(AllShapes(fields), name);
      SubsAreDescriptions(fields, name, sub);
    }
    if sub :| Describes(fields, name, sub) {
      SubsAreDescriptions(fields, name, sub);
      NamedHasSubs(AllShapes(fields), name);
    }
  }

  lemma MergedNames(shapes: seq<Shape>, name: string)
    requires MergeShapes(shapes).Some?
    ensures Has(MergeShapes(shapes).value, name) <==> Named(shapes, name)
    ensures UniqueNames(shapes) ==> UniqueKeys(MergeShapes(shapes).value)
  {
    MergeShapesLength(shapes);
    var props := MergeShapes(shapes).value;
    forall i: nat | i < |shapes| ensures props[i].key == shapes[i].name { MergeShapesAt(shapes, i); }
  }

  /** Every name of shapes that can be merged has a description. */
  lemma NamedIsDescribed(shapes: seq<Shape>, name: string) returns (sub: Json)
    requires UniqueNames(shapes) && MergeShapes(shapes).Some? && Named(shapes, name)
    ensures sub in SubsOf(shapes, name)
  {
    var i: nat :| i < |shapes| && shapes[i].name == name;
    MergeShapesLength(shapes);
    MergeShapesAt(shapes, i);
    SubsAt(shapes, i);
    sub := shapes[i].subs[0];
  }

  /** And no field is described wider than by its descriptions together. */
  lemma MergedPropertyTight(fields: seq<Field>, out: seq<Field>, name: string, inst: Json) returns (sub: Json)
    requires Merges(fields, out) && WellKeyed(Obj(fields))
    requires Has(PropertiesOf(out), name) && Allows(Get(PropertiesOf(out), name).value, inst)
    ensures Describes(fields, name, sub) && Offers(sub, inst)
  {
    var props := MergedProperties(fields, out);
    var subs := MergedOf(AllShapes(fields), name);
    AllShapesFacts(fields, name);
    var k := SameFieldTight(subs, inst);
    sub := subs[k];
    SubsAreDescriptions(fields, name, sub);
  }

  /** The property of a name is merged from all that is collected under it. */
  lemma MergedOf(shapes: seq<Shape>, name: string) returns (subs: seq<Json>)
    requires MergeShapes(shapes).Some? && Has(MergeShapes(shapes).value, name)
    ensures UniqueNames(shapes) ==> subs == SubsOf(shapes, name)
    ensures subs != [] && SameField(subs) == Some(Get(MergeShapes(shapes).value, name).value)
  {
    var i := GotAt(MergeShapes(shapes).value, name);
    MergeShapesLength(shapes);
    MergeShapesAt(shapes, i);
    subs := shapes[i].subs;
    if UniqueNames(shapes) { SubsAt(shapes, i); }
  }

  // ---------------------------------------------------------------------------
  // The required names
  // ---------------------------------------------------------------------------

  /** All the branches of a combiner require the name, and there is one. */
  ghost predicate AllRequire(fields: seq<Field>, key: string, name: string) {
    var branches := Branches(fields, key);
    branches != [] && forall b :: b in branches ==> Str(name) in RequiredOf(b)
  }

  ghost predicate OneRequires(fields: seq<Field>, key: string, name: string) {
    exists b :: b in Branches(fields, key) && Str(name) in RequiredOf(b)
  }

  /** The merged schema requires exactly the schema's own names, those that all branches of an `anyOf` or of a `oneOf`
      require, and those that some branch of an `allOf` does. */
  lemma MergedRequires(fields: seq<Field>, out: seq<Field>, name: string)
    requires Merges(fields, out)
    ensures Str(name) in RequiredOf(out) <==>
      || Str(name) in RequiredOf(fields) || AllRequire(fields, "anyOf", name) || AllRequire(fields, "oneOf", name)
      || OneRequires(fields, "allOf", name)
  {
    var props := MergedIsRebuilt(fields, out);
    RebuiltGets(fields, props, AllRequired(fields), "required");
    JoinedNames(fields, name);
  }

  lemma JoinedNames(fields: seq<Field>, name: string)
    ensures Str(name) in AllRequired(fields) <==>
      || Str(name) in RequiredOf(fields) || AllRequire(fields, "anyOf", name) || AllRequire(fields, "oneOf", name)
      || OneRequires(fields, "allOf", name)
  {
    var any := AddRequired(RequiredOf(fields), fields, "anyOf");
    AddedRequired(RequiredOf(fields), fields, "anyOf", name);
    AddedRequired(any, fields, "oneOf", name);
    AddedRequired(AddRequired(any, fields, "oneOf"), fields, "allOf", name);
  }

  lemma AddedRequired(required: seq<Json>, fields: seq<Field>, key: string, name: string)
    ensures Str(name) in AddRequired(required, fields, key) <==>
      || Str(name) in required
      || if key == "allOf" then OneRequires(fields, key, name) else AllRequire(fields, key, name)
  {
    var branches := Branches(fields, key);
    JoinedIs(branches, key, name);
    MissingIs(required, Joined(key, Sets(branches)), name);
  }

  lemma MissingIs(required: seq<Json>, extra: seq<Json>, name: string)
    ensures Str(name) in required + Missing(required, extra) <==> Str(name) in required || Str(name) in extra
  {
    if In(Str(name), required) { StrIn(Str(name), required); }
  }

  lemma JoinedIs(branches: seq<seq<Field>>, key: string, name: string)
    ensures Str(name) in Joined(key, Sets(branches)) <==>
      if key == "allOf" then exists b :: b in branches && Str(name) in RequiredOf(b)
      else branches != [] && forall b :: b in branches ==> Str(name) in RequiredOf(b)
  {
    var sets := Sets(branches);
    if key == "allOf" {
      if Str(name) in Flat(sets) {
        var i := InFlat(sets, Str(name));
        assert branches[i] in branches;
      }
      if b :| b in branches && Str(name) in RequiredOf(b) {
        var i :| 0 <= i < |branches| && branches[i] == b;
        FlatHas(sets, i, Str(name));
      }
    } else if branches != [] {
      if Str(name) in Shared(sets[0], sets[1..]) {
        forall b | b in branches ensures Str(name) in RequiredOf(b) {
          var k :| 0 <= k < |branches| && branches[k] == b;
          SharedIsRequired(branches, k, Str(name));
        }
      }
      if forall b :: b in branches ==> Str(name) in RequiredOf(b) {
        forall k | 0 <= k < |branches| ensures Str(name) in sets[k] { assert branches[k] in branches; }
        forall k | 0 <= k < |sets| - 1 ensures In(Str(name), sets[1..][k]) { InIfIn(Str(name), sets[k + 1]); }
      }
    }
  }

  lemma InIfIn(item: Json, list: seq<Json>)
    requires item.Str? && item in list
    ensures In(item, list)
  {
    var i :| 0 <= i < |list| && list[i] == item;
    EqReflexive(item, false);
  }

  lemma {:induction false} FlatHas(sets: seq<seq<Json>>, i: nat, item: Json)
    requires i < |sets| && item in sets[i]
    ensures item in Flat(sets)
  {
    if i > 0 { FlatHas(sets[1..], i - 1, item); }
  }
}
