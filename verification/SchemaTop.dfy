/** A schema's top-level combiners joined into its own properties and required keys
    (arslan/llm/tool_schema.py, `_merge_top`). The words it adds to the description are not modelled. */
module SchemaTop {
  import opened Wrappers
  import opened Json
  import opened SchemaInline
  import opened SchemaMeaning
  import opened SchemaMerge

  const COMBINERS := ["anyOf", "oneOf", "allOf"]

  /** A field and every way it is described, in the order met. */
  datatype Shape = Shape(name: string, subs: seq<Json>)

  // ---------------------------------------------------------------------------
  // Collecting
  // ---------------------------------------------------------------------------

  function PropertiesOf(fields: seq<Field>): seq<Field> {
    match Get(fields, "properties")
    case Some(Obj(props)) => props
    case _ => []
  }

  function RequiredOf(fields: seq<Field>): seq<Json> {
    match Get(fields, "required")
    case Some(Arr(items)) => items
    case _ => []
  }

  /** One more description of a field, under the name it has already or a new one at the end. */
  function AddShape(shapes: seq<Shape>, name: string, sub: Json): seq<Shape> {
    if shapes == [] then [Shape(name, [sub])]
    else if shapes[0].name == name then [Shape(name, shapes[0].subs + [sub])] + shapes[1..]
    else [shapes[0]] + AddShape(shapes[1..], name, sub)
  }

  function AddProperties(shapes: seq<Shape>, props: seq<Field>): seq<Shape>
    decreases |props|
  {
    if props == [] then shapes else AddProperties(AddShape(shapes, props[0].key, props[0].value), props[1..])
  }

  function AddBranches(shapes: seq<Shape>, branches: seq<seq<Field>>): seq<Shape>
    decreases |branches|
  {
    if branches == [] then shapes else AddBranches(AddProperties(shapes, PropertiesOf(branches[0])), branches[1..])
  }

  /** The branches that are objects. */
  function ObjectsIn(items: seq<Json>): (objs: seq<seq<Field>>)
    ensures forall b :: b in objs <==> Obj(b) in items
  {
    if items == [] then []
    else
      assert items == [items[0]] + items[1..];
      (if items[0].Obj? then [items[0].fields] else []) + ObjectsIn(items[1..])
  }

  /** The branches of one combiner, when it is there as a list. */
  function Branches(fields: seq<Field>, key: string): seq<seq<Field>> {
    match Get(fields, key)
    case Some(Arr(items)) => ObjectsIn(items)
    case _ => []
  }

  predicate Combined(fields: seq<Field>, key: string) {
    Get(fields, key).Some? && Get(fields, key).value.Arr?
  }

  function AllBranches(fields: seq<Field>): (all: seq<seq<Field>>)
    ensures forall b ::
      b in all <==> b in Branches(fields, "anyOf") || b in Branches(fields, "oneOf") || b in Branches(fields, "allOf")
  {
    Branches(fields, "anyOf") + Branches(fields, "oneOf") + Branches(fields, "allOf")
  }

  /** The required lists of the branches. */
  function Sets(branches: seq<seq<Field>>): (sets: seq<seq<Json>>)
    ensures |sets| == |branches| && forall i :: 0 <= i < |sets| ==> sets[i] == RequiredOf(branches[i])
  {
    seq(|branches|, i requires 0 <= i < |branches| => RequiredOf(branches[i]))
  }

  /** What all of the sets require; under `allOf`, what any of them does. */
  function Joined(key: string, sets: seq<seq<Json>>): seq<Json> {
    if key == "allOf" then Flat(sets)
    else if sets == [] then []
    else Shared(sets[0], sets[1..])
  }

  function Shared(first: seq<Json>, others: seq<seq<Json>>): (r: seq<Json>)
    ensures forall j :: j in r <==> j in first && forall i :: 0 <= i < |others| ==> In(j, others[i])
  {
    if first == [] then []
    else
      assert first == [first[0]] + first[1..];
      (if forall i :: 0 <= i < |others| ==> In(first[0], others[i]) then [first[0]] else [])
          + Shared(first[1..], others)
  }

  /** The elements of `extra` that `list` does not have yet. */
  function Missing(list: seq<Json>, extra: seq<Json>): (r: seq<Json>)
    ensures forall j :: j in r <==> j in extra && !In(j, list)
  {
    if extra == [] then []
    else
      assert extra == [extra[0]] + extra[1..];
      (if In(extra[0], list) then [] else [extra[0]]) + Missing(list, extra[1..])
  }

  function AddRequired(required: seq<Json>, fields: seq<Field>, key: string): seq<Json> {
    if !Combined(fields, key) then required
    else required + Missing(required, Joined(key, Sets(Branches(fields, key))))
  }

  function AllRequired(fields: seq<Field>): seq<Json> {
    AddRequired(AddRequired(AddRequired(RequiredOf(fields), fields, "anyOf"), fields, "oneOf"), fields, "allOf")
  }

  function AllShapes(fields: seq<Field>): seq<Shape> {
    AddBranches(AddProperties([], PropertiesOf(fields)), AllBranches(fields))
  }

  // ---------------------------------------------------------------------------
  // Merging
  // ---------------------------------------------------------------------------

  /** One schema a field, or None where `SameField` raises. */
  function MergeShapes(shapes: seq<Shape>): Option<seq<Field>> {
    if shapes == [] then Some([])
    else if shapes[0].subs == [] then None
    else
      var first, rest := SameField(shapes[0].subs), MergeShapes(shapes[1..]);
      if first.None? || rest.None? then None else Some([Field(shapes[0].name, first.value)] + rest.value)
  }

  function Without(fields: seq<Field>, keys: seq<string>): (r: seq<Field>)
    ensures forall f :: f in r <==> f in fields && f.key !in keys
  {
    if fields == [] then []
    else
      assert fields == [fields[0]] + fields[1..];
      (if fields[0].key in keys then [] else [fields[0]]) + Without(fields[1..], keys)
  }

  function MergeTop(fields: seq<Field>): Option<seq<Field>> {
    if !Combined(fields, "anyOf") && !Combined(fields, "oneOf") && !Combined(fields, "allOf") then Some(fields)
    else
      match MergeShapes(AllShapes(fields))
      case None => None
      case Some(properties) => Some(Rebuilt(fields, properties, AllRequired(fields)))
  }

  /** The schema without its combiners, as an object with these properties and required names. */
  function Rebuilt(fields: seq<Field>, properties: seq<Field>, required: seq<Json>): seq<Field> {
    var typed := Put(Without(fields, COMBINERS), Field("type", Str("object")));
    var out := Put(typed, Field("properties", Obj(properties)));
    if required != [] then Put(out, Field("required", Arr(required))) else Without(out, ["required"])
  }

  // ---------------------------------------------------------------------------
  // The loops
  // ---------------------------------------------------------------------------

  method CollectProperties(shapes: seq<Shape>, props: seq<Field>) returns (r: seq<Shape>)
    ensures r == AddProperties(shapes, props)
  {
    r := shapes;
    for i := 0 to |props|
      invariant AddProperties(shapes, props) == AddProperties(r, props[i..])
    {
      assert props[i..][1..] == props[i + 1..];
      r := AddShape(r, props[i].key, props[i].value);
    }
  }

  method CollectBranches(shapes: seq<Shape>, branches: seq<seq<Field>>) returns (r: seq<Shape>)
    ensures r == AddBranches(shapes, branches)
  {
    r := shapes;
    for i := 0 to |branches|
      invariant AddBranches(shapes, branches) == AddBranches(r, branches[i..])
    {
      assert branches[i..][1..] == branches[i + 1..];
      r := CollectProperties(r, PropertiesOf(branches[i]));
    }
  }

  lemma {:induction false} AddBranchesConcat(shapes: seq<Shape>, a: seq<seq<Field>>, b: seq<seq<Field>>)
    ensures AddBranches(shapes, a + b) == AddBranches(AddBranches(shapes, a), b)
    decreases |a|
  {
    if a == [] {
      assert a + b == b;
    } else {
      assert (a + b)[1..] == a[1..] + b;
      AddBranchesConcat(AddProperties(shapes, PropertiesOf(a[0])), a[1..], b);
    }
  }

  ghost function Prefixed(out: seq<Field>, rest: Option<seq<Field>>): Option<seq<Field>> {
    match rest
    case None => None
    case Some(fields) => Some(out + fields)
  }

  lemma PrefixedStep(out: seq<Field>, shapes: seq<Shape>, i: nat)
    requires i < |shapes|
    ensures shapes[i].subs == [] || SameField(shapes[i].subs).None? ==> MergeShapes(shapes[i..]) == None
    ensures shapes[i].subs != [] && SameField(shapes[i].subs).Some? ==>
      Prefixed(out, MergeShapes(shapes[i..]))
      == Prefixed(out + [Field(shapes[i].name, SameField(shapes[i].subs).value)], MergeShapes(shapes[i + 1..]))
  {
    assert shapes[i..][1..] == shapes[i + 1..];
    if shapes[i].subs != [] && SameField(shapes[i].subs).Some? && MergeShapes(shapes[i + 1..]).Some? {
      var f, rest := Field(shapes[i].name, SameField(shapes[i].subs).value), MergeShapes(shapes[i + 1..]).value;
      assert out + ([f] + rest) == out + [f] + rest;
    }
  }

  method MergeAllShapes(shapes: seq<Shape>) returns (properties: Option<seq<Field>>)
    ensures properties == MergeShapes(shapes)
  {
    var out: seq<Field> := [];
    assert shapes[0..] == shapes;
    assert MergeShapes(shapes).Some? ==> out + MergeShapes(shapes).value == MergeShapes(shapes).value;
    for i := 0 to |shapes|
      invariant MergeShapes(shapes) == Prefixed(out, MergeShapes(shapes[i..]))
    {
      PrefixedStep(out, shapes, i);
      if shapes[i].subs == [] {
        return None;
      }
      var merged := MergeField(shapes[i].subs);
      if merged.None? {
        return None;
      }
      out := out + [Field(shapes[i].name, merged.value)];
    }
    assert shapes[|shapes|..] == [] && out + [] == out;
    return Some(out);
  }

  method MergeTopLevel(fields: seq<Field>) returns (out: Option<seq<Field>>)
    ensures out == MergeTop(fields)
  {
    if !Combined(fields, "anyOf") && !Combined(fields, "oneOf") && !Combined(fields, "allOf") {
      return Some(fields);
    }
    var shapes, required := CollectAll(fields);
    var properties := MergeAllShapes(shapes);
    if properties.None? {
      return None;
    }
    var merged := Put(Without(fields, COMBINERS), Field("type", Str("object")));
    merged := Put(merged, Field("properties", Obj(properties.value)));
    if required != [] {
      merged := Put(merged, Field("required", Arr(required)));
    } else {
      merged := Without(merged, ["required"]);
    }
    return Some(merged);
  }

  /** One combiner after the other; one that is not there as a list adds nothing. */
  method CollectAll(fields: seq<Field>) returns (shapes: seq<Shape>, required: seq<Json>)
    ensures shapes == AllShapes(fields) && required == AllRequired(fields)
  {
    ghost var own := AddProperties([], PropertiesOf(fields));
    ghost var any, one, all := Branches(fields, "anyOf"), Branches(fields, "oneOf"), Branches(fields, "allOf");
    AddBranchesConcat(own, any + one, all);
    AddBranchesConcat(own, any, one);
    shapes := CollectProperties([], PropertiesOf(fields));
    required := RequiredOf(fields);
    shapes := CollectBranches(shapes, Branches(fields, "anyOf"));
    required := AddRequired(required, fields, "anyOf");
    shapes := CollectBranches(shapes, Branches(fields, "oneOf"));
    required := AddRequired(required, fields, "oneOf");
    shapes := CollectBranches(shapes, Branches(fields, "allOf"));
    required := AddRequired(required, fields, "allOf");
  }

  // ---------------------------------------------------------------------------
  // Shapes
  // ---------------------------------------------------------------------------

  function SubsOf(shapes: seq<Shape>, name: string): seq<Json> {
    if shapes == [] then [] else if shapes[0].name == name then shapes[0].subs else SubsOf(shapes[1..], name)
  }

  ghost predicate UniqueNames(shapes: seq<Shape>) {
    forall i, j :: 0 <= i < j < |shapes| ==> shapes[i].name != shapes[j].name
  }

  lemma AddShapeFacts(shapes: seq<Shape>, name: string, sub: Json, other: string)
    requires UniqueNames(shapes)
    ensures var r := AddShape(shapes, name, sub);
            && UniqueNames(r)
            && SubsOf(r, other) == SubsOf(shapes, other) + (if other == name then [sub] else [])
            && (forall i :: 0 <= i < |r| ==>
                  r[i].name == name || exists j :: 0 <= j < |shapes| && shapes[j].name == r[i].name)
  {
    AddShapeSubs(shapes, name, sub, other);
    AddShapeNames(shapes, name, sub);
  }

  lemma {:induction false} AddShapeSubs(shapes: seq<Shape>, name: string, sub: Json, other: string)
    requires UniqueNames(shapes)
    ensures SubsOf(AddShape(shapes, name, sub), other) == SubsOf(shapes, other) + (if other == name then [sub] else [])
  {
    var r := AddShape(shapes, name, sub);
    if shapes == [] {
      assert r[1..] == [];
    } else if shapes[0].name == name {
      assert r[1..] == shapes[1..];
      NotNamed(shapes[1..], name);
    } else {
      AddShapeSubs(shapes[1..], name, sub, other);
      assert r[1..] == AddShape(shapes[1..], name, sub);
    }
  }

  lemma {:induction false} AddShapeNames(shapes: seq<Shape>, name: string, sub: Json)
    requires UniqueNames(shapes)
    ensures var r := AddShape(shapes, name, sub);
            && UniqueNames(r)
            && (forall i :: 0 <= i < |r| ==>
                  r[i].name == name || exists j :: 0 <= j < |shapes| && shapes[j].name == r[i].name)
  {
    var r := AddShape(shapes, name, sub);
    if shapes != [] && shapes[0].name != name {
      var rest := AddShape(shapes[1..], name, sub);
      AddShapeNames(shapes[1..], name, sub);
      forall i | 0 <= i < |rest|
        ensures rest[i].name == name || exists j :: 1 <= j < |shapes| && shapes[j].name == rest[i].name
      {
        if rest[i].name != name {
          var j :| 0 <= j < |shapes| - 1 && shapes[1..][j].name == rest[i].name;
          assert shapes[j + 1].name == rest[i].name;
        }
      }
      assert r == [shapes[0]] + rest;
    }
  }

  lemma {:induction false} NotNamed(shapes: seq<Shape>, name: string)
    requires forall i :: 0 <= i < |shapes| ==> shapes[i].name != name
    ensures SubsOf(shapes, name) == []
  {
    if shapes != [] { NotNamed(shapes[1..], name); }
  }

  /** What the shape of `name` holds after adding `props`, and where shapes come from. */
  lemma {:induction false} AddPropertiesFacts(shapes: seq<Shape>, props: seq<Field>, name: string)
    requires UniqueNames(shapes)
    ensures var r := AddProperties(shapes, props);
            && UniqueNames(r)
            && (forall sub :: sub in SubsOf(shapes, name) ==> sub in SubsOf(r, name))
            && (Has(props, name) ==> Get(props, name).value in SubsOf(r, name))
            && (Named(r, name) ==> Named(shapes, name) || Has(props, name))
    decreases |props|
  {
    if props != [] {
      var added := AddShape(shapes, props[0].key, props[0].value);
      AddShapeFacts(shapes, props[0].key, props[0].value, name);
      AddPropertiesFacts(added, props[1..], name);
      assert forall i :: 0 <= i < |props| - 1 ==> props[1..][i] == props[i + 1];
    }
  }

  ghost predicate Named(shapes: seq<Shape>, name: string) {
    exists i :: 0 <= i < |shapes| && shapes[i].name == name
  }

  ghost predicate MentionedIn(branches: seq<seq<Field>>, name: string) {
    exists b :: b in branches && Has(PropertiesOf(b), name)
  }

  lemma {:induction false} AddBranchesFacts(shapes: seq<Shape>, branches: seq<seq<Field>>, name: string)
    requires UniqueNames(shapes)
    ensures var r := AddBranches(shapes, branches);
            && UniqueNames(r)
            && (forall sub :: sub in SubsOf(shapes, name) ==> sub in SubsOf(r, name))
            && (forall b :: b in branches && Has(PropertiesOf(b), name) ==>
                Get(PropertiesOf(b), name).value in SubsOf(r, name))
            && (Named(r, name) ==> Named(shapes, name) || MentionedIn(branches, name))
    decreases |branches|
  {
    if branches != [] {
      AddPropertiesFacts(shapes, PropertiesOf(branches[0]), name);
      AddBranchesFacts(AddProperties(shapes, PropertiesOf(branches[0])), branches[1..], name);
      assert branches == [branches[0]] + branches[1..];
    }
  }

  lemma AllShapesFacts(fields: seq<Field>, name: string)
    ensures var shapes := AllShapes(fields);
            && UniqueNames(shapes)
            && (Has(PropertiesOf(fields), name) ==> Get(PropertiesOf(fields), name).value in SubsOf(shapes, name))
            && (forall b :: b in AllBranches(fields) && Has(PropertiesOf(b), name) ==>
                  Get(PropertiesOf(b), name).value in SubsOf(shapes, name))
            && (Named(shapes, name) ==> Has(PropertiesOf(fields), name) || MentionedIn(AllBranches(fields), name))
  {
    AddPropertiesFacts([], PropertiesOf(fields), name);
    AddBranchesFacts(AddProperties([], PropertiesOf(fields)), AllBranches(fields), name);
  }

  lemma {:induction false} SubsAt(shapes: seq<Shape>, i: nat)
    requires UniqueNames(shapes) && i < |shapes|
    ensures SubsOf(shapes, shapes[i].name) == shapes[i].subs
  {
    if i > 0 {
      assert shapes[0].name != shapes[i].name;
      SubsAt(shapes[1..], i - 1);
    }
  }

  ghost predicate MergedInto(shape: Shape, f: Field) {
    shape.subs != [] && f.key == shape.name && SameField(shape.subs) == Some(f.value)
  }

  lemma {:induction false} MergeShapesAt(shapes: seq<Shape>, i: nat)
    requires MergeShapes(shapes).Some? && i < |shapes| == |MergeShapes(shapes).value|
    ensures MergedInto(shapes[i], MergeShapes(shapes).value[i])
  {
    MergeShapesFirst(shapes);
    if i > 0 { MergeShapesAt(shapes[1..], i - 1); }
  }

  lemma MergeShapesFirst(shapes: seq<Shape>)
    requires shapes != [] && MergeShapes(shapes).Some?
    ensures MergeShapes(shapes).value != [] && MergeShapes(shapes[1..]).Some?
    ensures MergedInto(shapes[0], MergeShapes(shapes).value[0])
    ensures MergeShapes(shapes).value[1..] == MergeShapes(shapes[1..]).value
  {
  }

  lemma {:induction false} MergeShapesLength(shapes: seq<Shape>)
    requires MergeShapes(shapes).Some?
    ensures |MergeShapes(shapes).value| == |shapes|
  {
    if shapes != [] { MergeShapesLength(shapes[1..]); }
  }

  // ---------------------------------------------------------------------------
  // What a satisfied schema tells
  // ---------------------------------------------------------------------------

  /** Each property of a satisfied object that the instance has is allowed its value. */
  lemma SatisfiedProperty(fields: seq<Field>, inst: seq<Field>, name: string)
    requires Allows(Obj(fields), Obj(inst)) && Has(PropertiesOf(fields), name) && Has(inst, name)
    ensures Allows(Get(PropertiesOf(fields), name).value, Get(inst, name).value)
  {
    var i :| 0 <= i < |fields| && fields[i] == Field("properties", Get(fields, "properties").value);
    AllowsField(fields, i, Obj(inst));
    var props := PropertiesOf(fields);
    var j :| 0 <= j < |props| && props[j] == Field(name, Get(props, name).value);
    assert AcceptsProperties(props, inst, map[], 0);
  }

  lemma SatisfiedRequired(fields: seq<Field>, inst: seq<Field>, item: Json)
    requires Allows(Obj(fields), Obj(inst)) && item in RequiredOf(fields) && item.Str?
    ensures Has(inst, item.s)
  {
    var i :| 0 <= i < |fields| && fields[i] == Field("required", Get(fields, "required").value);
    AllowsField(fields, i, Obj(inst));
  }

  /** A branch that is dropped though it accepts everything: neither an object nor `false`. */
  predicate Lost(item: Json) {
    !item.Obj? && item != Bool(false)
  }

  function LostCount(items: seq<Json>): nat {
    if items == [] then 0 else (if Lost(items[0]) then 1 else 0) + LostCount(items[1..])
  }

  /** Dropping branches adds nothing to what is required: none is lost, or more are lost than `oneOf` can accept, or
      the others together require no name that `sure` does not have. */
  ghost predicate DropsSafely(key: string, items: seq<Json>, sure: seq<Json>) {
    || LostCount(items) == 0
    || (key == "oneOf" && LostCount(items) > 1)
    || forall item :: item in Joined(key, Sets(ObjectsIn(items))) && item.Str? ==> item in sure
  }

  /** What the schema itself and its `allOf` require. */
  function Sure(fields: seq<Field>): seq<Json> {
    RequiredOf(fields) + Flat(Sets(Branches(fields, "allOf")))
  }

  /** Every `anyOf` and `oneOf` drops safely. */
  ghost predicate SafeDrops(fields: seq<Field>) {
    forall key :: key in {"anyOf", "oneOf"} && Combined(fields, key) ==>
      DropsSafely(key, Get(fields, key).value.items, Sure(fields))
  }

  lemma {:induction false} LostAreCounted(items: seq<Json>, inst: Json)
    ensures Count(items, inst, map[], 0) >= LostCount(items)
  {
    if items != [] { LostAreCounted(items[1..], inst); }
  }

  lemma {:induction false} LostIsCounted(items: seq<Json>, i: nat)
    requires i < |items| && Lost(items[i])
    ensures LostCount(items) >= 1
  {
    if i > 0 { LostIsCounted(items[1..], i - 1); }
  }

  lemma {:induction false} SomeCounted(items: seq<Json>, inst: Json)
    requires Count(items, inst, map[], 0) >= 1
    ensures exists i :: 0 <= i < |items| && Allows(items[i], inst)
  {
    if !Allows(items[0], inst) {
      SomeCounted(items[1..], inst);
      var i :| 0 <= i < |items| - 1 && Allows(items[1..][i], inst);
      assert items[i + 1] == items[1..][i];
    } else {
      assert Allows(items[0], inst);
    }
  }

  lemma {:induction false} AllCounted(items: seq<Json>, inst: Json)
    requires Count(items, inst, map[], 0) == |items|
    ensures forall i :: 0 <= i < |items| ==> Allows(items[i], inst)
  {
    if items != [] {
      AllCounted(items[1..], inst);
      assert forall i :: 1 <= i < |items| ==> items[i] == items[1..][i - 1];
    }
  }

  lemma AllBranchesSatisfied(fields: seq<Field>, inst: seq<Field>)
    requires Allows(Obj(fields), Obj(inst)) && Combined(fields, "allOf")
    ensures forall b :: b in Branches(fields, "allOf") ==> Allows(Obj(b), Obj(inst))
  {
    var items := Get(fields, "allOf").value.items;
    var i := GotAt(fields, "allOf");
    AllowsField(fields, i, Obj(inst));
    AllCounted(items, Obj(inst));
  }

  /** Of a satisfied `anyOf` or `oneOf` some object is satisfied, or a branch is lost; under `oneOf` only one. */
  lemma SatisfiedOrLost(fields: seq<Field>, inst: seq<Field>, key: string)
    requires Allows(Obj(fields), Obj(inst)) && key in {"anyOf", "oneOf"} && Combined(fields, key)
    ensures (exists b :: b in Branches(fields, key) && Allows(Obj(b), Obj(inst)))
      || LostCount(Get(fields, key).value.items) >= 1
    ensures key == "oneOf" ==> LostCount(Get(fields, key).value.items) <= 1
  {
    var items := Get(fields, key).value.items;
    var i := GotAt(fields, key);
    AllowsField(fields, i, Obj(inst));
    LostAreCounted(items, Obj(inst));
    SomeCounted(items, Obj(inst));
    var k :| 0 <= k < |items| && Allows(items[k], Obj(inst));
    if items[k].Obj? {
      assert items[k].fields in Branches(fields, key);
    } else {
      LostIsCounted(items, k);
    }
  }

  // ---------------------------------------------------------------------------
  // Merging only loosens
  // ---------------------------------------------------------------------------

  /** The instance uses no field mentioned only by branches it does not satisfy. */
  ghost predicate UsesOnlySatisfied(fields: seq<Field>, inst: seq<Field>) {
    var all := AllBranches(fields);
    forall i :: 0 <= i < |inst| && !Has(PropertiesOf(fields), inst[i].key) && MentionedIn(all, inst[i].key) ==>
      exists b :: b in all && Has(PropertiesOf(b), inst[i].key) && Allows(Obj(b), Obj(inst))
  }

  lemma ShapeAllows(fields: seq<Field>, inst: seq<Field>, name: string) returns (sub: Json)
    requires Allows(Obj(fields), Obj(inst)) && UsesOnlySatisfied(fields, inst)
    requires Has(inst, name) && Named(AllShapes(fields), name)
    ensures sub in SubsOf(AllShapes(fields), name) && Allows(sub, Get(inst, name).value)
  {
    AllShapesFacts(fields, name);
    if Has(PropertiesOf(fields), name) {
      SatisfiedProperty(fields, inst, name);
      sub := Get(PropertiesOf(fields), name).value;
    } else {
      var i :| 0 <= i < |inst| && inst[i].key == name;
      var b :| b in AllBranches(fields) && Has(PropertiesOf(b), name) && Allows(Obj(b), Obj(inst));
      SatisfiedProperty(b, inst, name);
      sub := Get(PropertiesOf(b), name).value;
    }
  }

  ghost predicate MergeableShapes(shapes: seq<Shape>) {
    forall i :: 0 <= i < |shapes| ==> Mergeable(shapes[i].subs)
  }

  lemma MergedPropertiesAllow(fields: seq<Field>, inst: seq<Field>)
    requires Allows(Obj(fields), Obj(inst)) && UsesOnlySatisfied(fields, inst)
    requires MergeableShapes(AllShapes(fields)) && MergeShapes(AllShapes(fields)).Some?
    ensures AcceptsProperties(MergeShapes(AllShapes(fields)).value, inst, map[], 0)
  {
    var shapes, props := AllShapes(fields), MergeShapes(AllShapes(fields)).value;
    forall i: nat | i < |props| && Has(inst, props[i].key)
      ensures Allows(props[i].value, Get(inst, props[i].key).value)
    {
      MergeShapesLength(shapes);
      MergeShapesAt(shapes, i);
      var name := shapes[i].name;
      assert Named(shapes, name);
      AllShapesFacts(fields, name);
      SubsAt(shapes, i);
      var sub := ShapeAllows(fields, inst, name);
      var k :| 0 <= k < |shapes[i].subs| && shapes[i].subs[k] == sub;
      SameFieldLoosens(shapes[i].subs, k, Get(inst, name).value);
    }
  }

  ghost predicate AllPresent(required: seq<Json>, inst: seq<Field>) {
    forall item :: item in required && item.Str? ==> Has(inst, item.s)
  }

  lemma {:induction false} InFlat(sets: seq<seq<Json>>, item: Json) returns (i: nat)
    requires item in Flat(sets)
    ensures i < |sets| && item in sets[i]
  {
    if item in sets[0] {
      i := 0;
    } else {
      i := InFlat(sets[1..], item);
      i := i + 1;
    }
  }

  lemma AllOfPresent(branches: seq<seq<Field>>, inst: seq<Field>)
    requires forall b :: b in branches ==> Allows(Obj(b), Obj(inst))
    ensures AllPresent(Joined("allOf", Sets(branches)), inst)
  {
    forall item | item in Flat(Sets(branches)) && item.Str? ensures Has(inst, item.s) {
      var i := InFlat(Sets(branches), item);
      SatisfiedRequired(branches[i], inst, item);
    }
  }

  lemma StrIn(item: Json, list: seq<Json>)
    requires item.Str? && In(item, list)
    ensures item in list
  {
    var i :| 0 <= i < |list| && Eq(item, list[i], false);
    assert item == list[i];
  }

  lemma SharedIsRequired(branches: seq<seq<Field>>, k: nat, item: Json)
    requires k < |branches| && item.Str? && item in Shared(Sets(branches)[0], Sets(branches)[1..])
    ensures item in RequiredOf(branches[k])
  {
    SharedIsInEach(Sets(branches), k, item);
  }

  lemma SharedIsInEach(sets: seq<seq<Json>>, k: nat, item: Json)
    requires k < |sets| && item.Str? && item in Shared(sets[0], sets[1..])
    ensures item in sets[k]
  {
    if k > 0 {
      assert sets[1..][k - 1] == sets[k];
      StrIn(item, sets[k]);
    }
  }

  /** A key every branch requires is required by the satisfied one. */
  lemma SharedPresent(key: string, branches: seq<seq<Field>>, i: nat, inst: seq<Field>)
    requires key != "allOf" && i < |branches| && Allows(Obj(branches[i]), Obj(inst))
    ensures AllPresent(Joined(key, Sets(branches)), inst)
  {
    forall item | item in Joined(key, Sets(branches)) && item.Str? ensures Has(inst, item.s) {
      SharedIsRequired(branches, i, item);
      SatisfiedRequired(branches[i], inst, item);
    }
  }

  lemma SurePresent(fields: seq<Field>, inst: seq<Field>)
    requires Allows(Obj(fields), Obj(inst))
    ensures AllPresent(Sure(fields), inst)
  {
    if Combined(fields, "allOf") {
      AllBranchesSatisfied(fields, inst);
      AllOfPresent(Branches(fields, "allOf"), inst);
    }
    forall item | item in Sure(fields) && item.Str? ensures Has(inst, item.s) {
      if item in RequiredOf(fields) { SatisfiedRequired(fields, inst, item); }
    }
  }

  /** What the branches of one combiner require together is present. */
  lemma JoinedPresent(fields: seq<Field>, inst: seq<Field>, key: string)
    requires Allows(Obj(fields), Obj(inst)) && SafeDrops(fields) && key in {"anyOf", "oneOf"} && Combined(fields, key)
    ensures AllPresent(Joined(key, Sets(Branches(fields, key))), inst)
  {
    SatisfiedOrLost(fields, inst, key);
    SurePresent(fields, inst);
    var branches := Branches(fields, key);
    if exists b :: b in branches && Allows(Obj(b), Obj(inst)) {
      var b :| b in branches && Allows(Obj(b), Obj(inst));
      var i :| 0 <= i < |branches| && branches[i] == b;
      SharedPresent(key, branches, i, inst);
    }
  }

  lemma RequiredStaysPresent(required: seq<Json>, fields: seq<Field>, inst: seq<Field>, key: string)
    requires AllPresent(required, inst) && key in COMBINERS
    requires Allows(Obj(fields), Obj(inst)) && SafeDrops(fields)
    ensures AllPresent(AddRequired(required, fields, key), inst)
  {
    if Combined(fields, key) {
      if key == "allOf" {
        AllBranchesSatisfied(fields, inst);
        AllOfPresent(Branches(fields, key), inst);
      } else {
        JoinedPresent(fields, inst, key);
      }
    }
  }

  lemma AllRequiredPresent(fields: seq<Field>, inst: seq<Field>)
    requires Allows(Obj(fields), Obj(inst)) && SafeDrops(fields)
    ensures AllPresent(AllRequired(fields), inst)
  {
    forall item | item in RequiredOf(fields) && item.Str? ensures Has(inst, item.s) {
      SatisfiedRequired(fields, inst, item);
    }
    var any := AddRequired(RequiredOf(fields), fields, "anyOf");
    RequiredStaysPresent(RequiredOf(fields), fields, inst, "anyOf");
    RequiredStaysPresent(any, fields, inst, "oneOf");
    RequiredStaysPresent(AddRequired(any, fields, "oneOf"), fields, inst, "allOf");
  }

  lemma {:induction false} PutElements(fields: seq<Field>, f: Field)
    requires UniqueKeys(fields)
    ensures UniqueKeys(Put(fields, f))
    ensures forall g :: g in Put(fields, f) ==> g == f || (g in fields && g.key != f.key)
  {
    if fields != [] && fields[0].key != f.key {
      PutElements(fields[1..], f);
      var put, rest := Put(fields, f), Put(fields[1..], f);
      assert put == [fields[0]] + rest;
      forall j | 0 < j < |put| ensures put[j].key != fields[0].key {
        assert put[j] == rest[j - 1] && rest[j - 1] in rest;
        if put[j] != f {
          var k :| 0 <= k < |fields| - 1 && fields[1..][k] == put[j];
        }
      }
    }
  }

  lemma {:induction false} WithoutUnique(fields: seq<Field>, keys: seq<string>)
    requires UniqueKeys(fields)
    ensures UniqueKeys(Without(fields, keys))
  {
    if fields != [] {
      WithoutUnique(fields[1..], keys);
      var rest := Without(fields[1..], keys);
      if fields[0].key !in keys {
        forall j | 0 < j < |rest| + 1 ensures ([fields[0]] + rest)[j].key != fields[0].key {
          assert rest[j - 1] in rest;
          var k :| 0 <= k < |fields| - 1 && fields[1..][k] == rest[j - 1];
        }
      }
    }
  }

  /** Every object the original accepts is accepted by the merged schema, as long as it uses no field mentioned
      only by branches it does not satisfy, no dropped branch tightens (`DroppedBranchIff`), and no values are
      confused. */
  lemma MergingOnlyLoosens(fields: seq<Field>, inst: seq<Field>)
    requires UniqueKeys(fields) && SafeDrops(fields) && MergeableShapes(AllShapes(fields))
    requires MergeTop(fields).Some?
    requires Allows(Obj(fields), Obj(inst)) && UsesOnlySatisfied(fields, inst)
    ensures Allows(Obj(MergeTop(fields).value), Obj(inst))
  {
    if Combined(fields, "anyOf") || Combined(fields, "oneOf") || Combined(fields, "allOf") {
      var out := MergeTop(fields).value;
      forall i: nat | i < |out| ensures AcceptsField(out[i], Obj(inst), map[], 0) {
        MergedField(fields, inst, out[i]);
      }
    }
  }

  /** A field of the merged schema is one of the original's, or one of the three that are set. */
  lemma MergedFrom(fields: seq<Field>, f: Field)
    requires UniqueKeys(fields) && MergeTop(fields).Some? && f in MergeTop(fields).value
    requires Combined(fields, "anyOf") || Combined(fields, "oneOf") || Combined(fields, "allOf")
    ensures f in fields || f == Field("type", Str("object"))
         || f == Field("properties", Obj(MergeShapes(AllShapes(fields)).value))
         || f == Field("required", Arr(AllRequired(fields)))
  {
    WithoutUnique(fields, COMBINERS);
    PutInto(Without(fields, COMBINERS), Field("type", Str("object")),
            Field("properties", Obj(MergeShapes(AllShapes(fields)).value)),
            Field("required", Arr(AllRequired(fields))), f);
  }

  lemma PutInto(base: seq<Field>, a: Field, b: Field, c: Field, f: Field)
    requires UniqueKeys(base) && (f in Put(Put(base, a), b) || f in Put(Put(Put(base, a), b), c))
    ensures f in base || f == a || f == b || f == c
  {
    PutElements(base, a);
    PutElements(Put(base, a), b);
    PutElements(Put(Put(base, a), b), c);
  }

  lemma OwnField(fields: seq<Field>, inst: Json, f: Field)
    requires f in fields && Allows(Obj(fields), inst)
    ensures AcceptsField(f, inst, map[], 0)
  {
    var i :| 0 <= i < |fields| && fields[i] == f;
    AllowsField(fields, i, inst);
  }

  lemma MergedField(fields: seq<Field>, inst: seq<Field>, f: Field)
    requires UniqueKeys(fields) && SafeDrops(fields) && MergeableShapes(AllShapes(fields))
    requires MergeTop(fields).Some? && f in MergeTop(fields).value
    requires Combined(fields, "anyOf") || Combined(fields, "oneOf") || Combined(fields, "allOf")
    requires Allows(Obj(fields), Obj(inst)) && UsesOnlySatisfied(fields, inst)
    ensures AcceptsField(f, Obj(inst), map[], 0)
  {
    MergedFrom(fields, f);
    if f in fields {
      OwnField(fields, Obj(inst), f);
    } else if f == Field("properties", Obj(MergeShapes(AllShapes(fields)).value)) {
      MergedPropertiesAllow(fields, inst);
      PropertiesField(MergeShapes(AllShapes(fields)).value, inst);
    } else if f == Field("required", Arr(AllRequired(fields))) {
      AllRequiredPresent(fields, inst);
      RequiredField(AllRequired(fields), inst);
    } else {
      ObjectField(inst);
    }
  }

  lemma PropertiesField(props: seq<Field>, inst: seq<Field>)
    requires AcceptsProperties(props, inst, map[], 0)
    ensures AcceptsField(Field("properties", Obj(props)), Obj(inst), map[], 0)
  {
  }

  lemma RequiredField(required: seq<Json>, inst: seq<Field>)
    requires AllPresent(required, inst)
    ensures AcceptsField(Field("required", Arr(required)), Obj(inst), map[], 0)
  {
  }

  lemma ObjectField(inst: seq<Field>)
    ensures AcceptsField(Field("type", Str("object")), Obj(inst), map[], 0)
  {
  }

  /** The two passes together: what a schema with references accepts, its reshaped form accepts. */
  lemma ReshapingOnlyLoosens(schema: Json, defs: Defs, inst: seq<Field>, merged: seq<Field>)
    requires Clean(schema, defs, [], NODE_BUDGET) && Inline(schema, defs, [], NODE_BUDGET).0.Obj?
    requires var fields := Inline(schema, defs, [], NODE_BUDGET).0.fields;
             && UniqueKeys(fields) && SafeDrops(fields) && MergeableShapes(AllShapes(fields))
             && UsesOnlySatisfied(fields, inst)
             && MergeTop(fields) == Some(merged)
    requires Accepts(schema, Obj(inst), defs, REF_DEPTH)
    ensures Allows(Obj(merged), Obj(inst))
  {
    InliningKeepsMeaning(schema, defs, Obj(inst), REF_DEPTH);
    MergingOnlyLoosens(Inline(schema, defs, [], NODE_BUDGET).0.fields, inst);
  }

  // ---------------------------------------------------------------------------
  // Which dropped branch tightens
  // ---------------------------------------------------------------------------

  /** The schema around one combiner: no other combiner, and this much required. */
  ghost predicate Around(own: seq<Field>, required: seq<Json>) {
    RequiredOf(own) == required && forall key :: key in COMBINERS ==> !Has(own, key)
  }

  /** In every schema that requires `required` besides, what is joined from these branches is present. */
  ghost predicate AlwaysPresent(key: string, items: seq<Json>, required: seq<Json>) {
    forall own: seq<Field>, inst: seq<Field> :: Around(own, required) ==>
        PresentIn(own + [Field(key, Arr(items))], inst)
  }

  ghost predicate PresentIn(fields: seq<Field>, inst: seq<Field>) {
    Allows(Obj(fields), Obj(inst)) ==> AllPresent(AllRequired(fields), inst)
  }

  lemma {:induction false} GetPlus(own: seq<Field>, f: Field, key: string)
    ensures Get(own + [f], key) == if Has(own, key) then Get(own, key) else if f.key == key then Some(f.value) else None
  {
    var all := own + [f];
    if own == [] {
      assert all[0] == f && all[1..] == [];
    } else {
      assert all[0] == own[0] && all[1..] == own[1..] + [f];
      GetPlus(own[1..], f, key);
      assert Has(own, key) <==> own[0].key == key || Has(own[1..], key) by {
        assert forall i :: 1 <= i < |own| ==> own[i] == own[1..][i - 1];
        assert forall i :: 0 <= i < |own| - 1 ==> own[1..][i] == own[i + 1];
      }
    }
  }

  /** What a schema with one combiner is made of. */
  ghost predicate HasOnly(fields: seq<Field>, key: string, items: seq<Json>, required: seq<Json>) {
    && Get(fields, key) == Some(Arr(items)) && RequiredOf(fields) == required
    && forall other :: other in COMBINERS && other != key ==> Get(fields, other) == None
  }

  lemma OneCombiner(own: seq<Field>, key: string, items: seq<Json>, required: seq<Json>)
    requires Around(own, required) && key in {"anyOf", "oneOf"}
    ensures HasOnly(own + [Field(key, Arr(items))], key, items, required)
  {
    var f := Field(key, Arr(items));
    assert key in COMBINERS;
    GetPlus(own, f, key);
    GetPlus(own, f, "required");
    forall other | other in COMBINERS && other != key ensures Get(own + [f], other) == None {
      GetPlus(own, f, other);
    }
  }

  lemma OnlyItIsSure(fields: seq<Field>, key: string, items: seq<Json>, required: seq<Json>)
    requires HasOnly(fields, key, items, required) && key in {"anyOf", "oneOf"}
    ensures Sure(fields) == required
  {
    NothingBeside(fields, key, items, required, "allOf");
    assert Branches(fields, "allOf") == [] && Sets([]) == [] && Flat<Json>([]) == [] && required + [] == required;
  }

  lemma OnlyItRequires(fields: seq<Field>, key: string, items: seq<Json>, required: seq<Json>)
    requires HasOnly(fields, key, items, required) && key in {"anyOf", "oneOf"}
    ensures AllRequired(fields) == required + Missing(required, Joined(key, Sets(ObjectsIn(items))))
  {
    NothingBeside(fields, key, items, required, "allOf");
    NothingBeside(fields, key, items, required, if key == "anyOf" then "oneOf" else "anyOf");
  }

  lemma NothingBeside(fields: seq<Field>, key: string, items: seq<Json>, required: seq<Json>, other: string)
    requires HasOnly(fields, key, items, required) && other in COMBINERS && other != key
    ensures !Combined(fields, other) && forall r :: AddRequired(r, fields, other) == r
  {
    assert Get(fields, other) == None;
  }

  lemma {:induction false} LostAreAllCounted(items: seq<Json>, inst: Json)
    requires forall i :: 0 <= i < |items| && items[i].Obj? ==> !Allows(items[i], inst)
    ensures Count(items, inst, map[], 0) == LostCount(items)
  {
    if items != [] {
      assert forall i :: 0 <= i < |items| - 1 ==> items[1..][i] == items[i + 1];
      LostAreAllCounted(items[1..], inst);
    }
  }

  /** No object branch accepts an object without a name they all require. */
  lemma BranchesRefuse(key: string, items: seq<Json>, item: Json, inst: seq<Field>)
    requires key in {"anyOf", "oneOf"} && item in Joined(key, Sets(ObjectsIn(items))) && item.Str? && !Has(inst, item.s)
    ensures Count(items, Obj(inst), map[], 0) == LostCount(items)
  {
    var branches := ObjectsIn(items);
    forall i | 0 <= i < |items| && items[i].Obj? ensures !Allows(items[i], Obj(inst)) {
      assert items[i].fields in branches;
      var k :| 0 <= k < |branches| && branches[k] == items[i].fields;
      SharedIsRequired(branches, k, item);
      if Allows(Obj(branches[k]), Obj(inst)) {
        SatisfiedRequired(branches[k], inst, item);
        assert false;
      }
    }
    LostAreAllCounted(items, Obj(inst));
  }

  /** A name the branches require and the schema does not, and the object with just what the schema requires. */
  ghost predicate Tightens(key: string, items: seq<Json>, required: seq<Json>, inst: seq<Field>) {
    var fields := [Field("required", Arr(required))] + [Field(key, Arr(items))];
    Allows(Obj(fields), Obj(inst)) && !AllPresent(AllRequired(fields), inst)
  }

  /** The object with just the keys a schema requires is accepted, when a branch is lost. */
  lemma AcceptedAlone(key: string, items: seq<Json>, required: seq<Json>, inst: seq<Field>)
    requires key in {"anyOf", "oneOf"} && Count(items, Obj(inst), map[], 0) == LostCount(items) >= 1
    requires key == "oneOf" ==> LostCount(items) == 1
    requires forall i :: 0 <= i < |required| && required[i].Str? ==> Has(inst, required[i].s)
    ensures Allows(Obj([Field("required", Arr(required))] + [Field(key, Arr(items))]), Obj(inst))
  {
    var fields := [Field("required", Arr(required))] + [Field(key, Arr(items))];
    assert AcceptsField(fields[0], Obj(inst), map[], 0);
    assert AcceptsField(fields[1], Obj(inst), map[], 0);
  }

  lemma JustRequired(key: string, items: seq<Json>, required: seq<Json>) returns (inst: seq<Field>)
    requires key in {"anyOf", "oneOf"} && !DropsSafely(key, items, required)
    ensures Tightens(key, items, required, inst)
  {
    var item :| item in Joined(key, Sets(ObjectsIn(items))) && item.Str? && item !in required;
    inst := WithKeys(required);
    OnlyTheseKeys(required, inst, item);
    BranchesRefuse(key, items, item, inst);
    AcceptedAlone(key, items, required, inst);
    var own := [Field("required", Arr(required))];
    RequiredAlone(required);
    OneCombiner(own, key, items, required);
    OnlyItIsSure(own + [Field(key, Arr(items))], key, items, required);
    OnlyItRequires(own + [Field(key, Arr(items))], key, items, required);
    NewNameJoins(required, Joined(key, Sets(ObjectsIn(items))), item);
  }

  lemma OnlyTheseKeys(required: seq<Json>, inst: seq<Field>, item: Json)
    requires item.Str? && item !in required && forall k :: 0 <= k < |inst| ==> Str(inst[k].key) in required
    ensures !Has(inst, item.s)
  {
    forall k | 0 <= k < |inst| ensures inst[k].key != item.s { assert Str(inst[k].key) in required; }
  }

  lemma RequiredAlone(required: seq<Json>)
    ensures Around([Field("required", Arr(required))], required)
  {
    var own := [Field("required", Arr(required))];
    assert own[0].key == "required";
  }

  lemma NewNameJoins(required: seq<Json>, extra: seq<Json>, item: Json)
    requires item in extra && item.Str? && item !in required
    ensures item in required + Missing(required, extra)
  {
    if In(item, required) {
      StrIn(item, required);
      assert false;
    }
  }

  /** Dropping branches that are no objects makes a schema ask for more exactly when one of them is lost (under
      `oneOf`, just one) and the other branches together require a name that the schema does not require itself. */
  lemma DroppedBranchIff(key: string, items: seq<Json>, required: seq<Json>)
    requires key in {"anyOf", "oneOf"}
    ensures AlwaysPresent(key, items, required) <==> DropsSafely(key, items, required)
  {
    if DropsSafely(key, items, required) {
      forall own: seq<Field>, inst: seq<Field> | Around(own, required)
        ensures PresentIn(own + [Field(key, Arr(items))], inst)
      {
        SafelyPresent(own, key, items, required, inst);
      }
    } else {
      var inst := JustRequired(key, items, required);
      NotAlwaysPresent(key, items, required, inst);
    }
  }

  lemma NotAlwaysPresent(key: string, items: seq<Json>, required: seq<Json>, inst: seq<Field>)
    requires Tightens(key, items, required, inst)
    ensures !AlwaysPresent(key, items, required)
  {
    var own := [Field("required", Arr(required))];
    RequiredAlone(required);
    assert !PresentIn(own + [Field(key, Arr(items))], inst);
  }

  lemma SafelyPresent(own: seq<Field>, key: string, items: seq<Json>, required: seq<Json>, inst: seq<Field>)
    requires key in {"anyOf", "oneOf"} && DropsSafely(key, items, required) && Around(own, required)
    ensures PresentIn(own + [Field(key, Arr(items))], inst)
  {
    var fields := own + [Field(key, Arr(items))];
    OneCombiner(own, key, items, required);
    OnlyItIsSure(fields, key, items, required);
    OnlyItRequires(fields, key, items, required);
    assert SafeDrops(fields) by {
      assert forall other :: other in {"anyOf", "oneOf"} && other != key ==> other in COMBINERS;
    }
    if Allows(Obj(fields), Obj(inst)) { AllRequiredPresent(fields, inst); }
  }

  /** And then the merged schema refuses an object that the original accepts. */
  lemma DroppedBranchTightens(key: string, items: seq<Json>, required: seq<Json>) returns (inst: seq<Field>)
    requires key in {"anyOf", "oneOf"} && !DropsSafely(key, items, required)
    ensures var fields := [Field("required", Arr(required))] + [Field(key, Arr(items))];
      Allows(Obj(fields), Obj(inst)) && (MergeTop(fields).Some? ==> !Allows(Obj(MergeTop(fields).value), Obj(inst)))
  {
    inst := JustRequired(key, items, required);
    var own := [Field("required", Arr(required))];
    RequiredAlone(required);
    OneCombiner(own, key, items, required);
    if MergeTop(own + [Field(key, Arr(items))]).Some? { RefusesMissing(own + [Field(key, Arr(items))], key, inst); }
  }

  lemma RefusesMissing(fields: seq<Field>, key: string, inst: seq<Field>)
    requires key in {"anyOf", "oneOf"} && Combined(fields, key) && MergeTop(fields).Some?
    requires !AllPresent(AllRequired(fields), inst)
    ensures !Allows(Obj(MergeTop(fields).value), Obj(inst))
  {
    var needs := Field("required", Arr(AllRequired(fields)));
    var typed := Put(Without(fields, COMBINERS), Field("type", Str("object")));
    var before := Put(typed, Field("properties", Obj(MergeShapes(AllShapes(fields)).value)));
    PutIn(before, needs);
    MissingRefuses(Put(before, needs), needs, inst);
  }

  lemma MissingRefuses(out: seq<Field>, needs: Field, inst: seq<Field>)
    requires needs in out && needs.key == "required" && needs.value.Arr? && !AllPresent(needs.value.items, inst)
    ensures !Allows(Obj(out), Obj(inst))
  {
    var i: nat :| i < |out| && out[i] == needs;
    var item :| item in needs.value.items && item.Str? && !Has(inst, item.s);
    var k :| 0 <= k < |needs.value.items| && needs.value.items[k] == item;
    if Allows(Obj(out), Obj(inst)) {
      AllowsField(out, i, Obj(inst));
      assert false;
    }
  }

  lemma {:induction false} PutIn(fields: seq<Field>, f: Field)
    ensures f in Put(fields, f)
  {
    if fields != [] && fields[0].key != f.key { PutIn(fields[1..], f); }
  }
}
