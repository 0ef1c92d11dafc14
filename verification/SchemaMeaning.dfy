/** What a schema accepts, for the keywords the reshaping treats (JSON Schema Core draft 2020-12: section
    8.2.3.1 for `$ref`, section 10.2.1 for the combiners, section 10.3.2.1 for `properties`; JSON Schema
    Validation section 6.1 for `type`, `enum` and `const`, section 6.5.3 for `required`), and that inlining
    keeps it. */
module SchemaMeaning {
  import opened Wrappers
  import opened Json
  import opened SchemaInline

  const KEYWORDS := {"type", "const", "enum", "required", "properties", "anyOf", "oneOf", "allOf", "$ref"}

  predicate HasType(j: Json, kind: string) {
    match j
    case Null => kind == "null"
    case Bool(_) => kind == "boolean"
    case Num(n) => kind == "number" || (kind == "integer" && n == n.Floor as real)
    case Str(_) => kind == "string"
    case Arr(_) => kind == "array"
    case Obj(_) => kind == "object"
  }

  // ---------------------------------------------------------------------------
  // Validation
  // ---------------------------------------------------------------------------

  /** Whether `schema` accepts `inst`. A reference is followed at most `fuel` deep; past that, or when it names
      nothing, it says nothing. */
  ghost predicate Accepts(schema: Json, inst: Json, defs: Defs, fuel: nat)
    decreases fuel, schema, 2
  {
    match schema
    case Bool(b) => b
    case Obj(fields) => AcceptsFields(fields, inst, defs, fuel)
    case _ => true
  }

  /** Every keyword's own condition holds: keywords apply independently. */
  ghost predicate AcceptsFields(fields: seq<Field>, inst: Json, defs: Defs, fuel: nat)
    decreases fuel, fields, 1
  {
    forall i :: 0 <= i < |fields| ==> AcceptsField(fields[i], inst, defs, fuel)
  }

  ghost predicate AcceptsField(f: Field, inst: Json, defs: Defs, fuel: nat)
    decreases fuel, f, 0
  {
    if f.key == "type" then f.value.Str? ==> HasType(inst, f.value.s)
    else if f.key == "const" then Eq(inst, f.value, true)
    else if f.key == "enum" then f.value.Arr? ==>
        exists i :: 0 <= i < |f.value.items| && Eq(inst, f.value.items[i], true)
    else if f.key == "required" then
      f.value.Arr? && inst.Obj? ==> forall i :: 0 <= i < |f.value.items| && f.value.items[i].Str? ==>
          Has(inst.fields, f.value.items[i].s)
    else if f.key == "properties" then
      f.value.Obj? && inst.Obj? ==> AcceptsProperties(f.value.fields, inst.fields, defs, fuel)
    else if f.key == "anyOf" then f.value.Arr? ==> Count(f.value.items, inst, defs, fuel) >= 1
    else if f.key == "oneOf" then f.value.Arr? ==> Count(f.value.items, inst, defs, fuel) == 1
    else if f.key == "allOf" then f.value.Arr? ==> Count(f.value.items, inst, defs, fuel) == |f.value.items|
    else if f.key == "$ref" then
      f.value.Str? && Target(f.value.s).Some? && Target(f.value.s).value in defs && fuel > 0 ==>
        Accepts(defs[Target(f.value.s).value], inst, defs, fuel - 1)
    else true
  }

  /** Every property the instance has is accepted by its schema. */
  ghost predicate AcceptsProperties(props: seq<Field>, inst: seq<Field>, defs: Defs, fuel: nat)
    decreases fuel, props, 0
  {
    forall i :: 0 <= i < |props| && Has(inst, props[i].key) ==>
      Accepts(props[i].value, Get(inst, props[i].key).value, defs, fuel)
  }

  /** How many of the schemas accept `inst`. */
  ghost function Count(schemas: seq<Json>, inst: Json, defs: Defs, fuel: nat): (n: nat)
    ensures n <= |schemas|
    decreases fuel, schemas, 0
  {
    if schemas == [] then 0
    else (if Accepts(schemas[0], inst, defs, fuel) then 1 else 0) + Count(schemas[1..], inst, defs, fuel)
  }

  /** What a schema without references accepts. */
  ghost predicate Allows(schema: Json, inst: Json) {
    Accepts(schema, inst, map[], 0)
  }

  /** An exit of inlining accepts every object, and nothing else. */
  lemma LooseAcceptsObjects(why: string, inst: Json)
    ensures Allows(Loose(why), inst) <==> inst.Obj?
  {
    var fields := Loose(why).fields;
    assert "object"[0] == 'o' && "string"[0] == 's' && "number"[0] == 'n';
    assert HasType(inst, "object") <==> inst.Obj?;
    assert AcceptsField(fields[0], inst, map[], 0) <==> inst.Obj?;
    assert AcceptsField(fields[1], inst, map[], 0);
    assert |fields| == 2 && (Allows(Loose(why), inst) <==> AcceptsFields(fields, inst, map[], 0));
  }

  /** An object with the keys of a `required` list. */
  function WithKeys(items: seq<Json>): (inst: seq<Field>)
    ensures forall i :: 0 <= i < |items| && items[i].Str? ==> Has(inst, items[i].s)
    ensures forall k :: 0 <= k < |inst| ==> Str(inst[k].key) in items
  {
    if items == [] then []
    else
      var rest := WithKeys(items[1..]);
      assert items == [items[0]] + items[1..];
      if !items[0].Str? then rest
      else
        var inst := [Field(items[0].s, Null)] + rest;
        assert inst[0].key == items[0].s && forall k :: 0 <= k < |rest| ==> inst[k + 1] == rest[k];
        assert forall i :: 1 <= i < |items| && items[i].Str? ==> items[i] == items[1..][i - 1] && Has(rest, items[i].s);
        inst
  }

  // ---------------------------------------------------------------------------
  // Equal schemas
  // ---------------------------------------------------------------------------

  /** Schemas equal as JSON accept the same. */
  lemma {:induction false} EqAccepts(a: Json, b: Json, inst: Json, defs: Defs, fuel: nat)
    requires WellKeyed(a) && WellKeyed(b) && Eq(a, b, true)
    ensures Accepts(a, inst, defs, fuel) <==> Accepts(b, inst, defs, fuel)
    decreases a, 2
  {
    if a.Obj? {
      var x, y := a.fields, b.fields;
      forall i, j | 0 <= i < |x| && 0 <= j < |y| && x[i].key == y[j].key
        ensures AcceptsField(x[i], inst, defs, fuel) <==> AcceptsField(y[j], inst, defs, fuel)
      {
        GetAt(y, j);
        EqFieldAccepts(x[i], y[j], inst, defs, fuel);
      }
      SameKeyed(x, y, inst, defs, fuel);
    }
  }

  lemma SameKeyed(x: seq<Field>, y: seq<Field>, inst: Json, defs: Defs, fuel: nat)
    requires forall i :: 0 <= i < |x| ==> Has(y, x[i].key)
    requires forall j :: 0 <= j < |y| ==> Has(x, y[j].key)
    requires forall i, j :: 0 <= i < |x| && 0 <= j < |y| && x[i].key == y[j].key ==>
      (AcceptsField(x[i], inst, defs, fuel) <==> AcceptsField(y[j], inst, defs, fuel))
    ensures AcceptsFields(x, inst, defs, fuel) <==> AcceptsFields(y, inst, defs, fuel)
  {
    if AcceptsFields(x, inst, defs, fuel) {
      forall j | 0 <= j < |y| ensures AcceptsField(y[j], inst, defs, fuel) {
        var i :| 0 <= i < |x| && x[i].key == y[j].key;
      }
    }
    if AcceptsFields(y, inst, defs, fuel) {
      forall i | 0 <= i < |x| ensures AcceptsField(x[i], inst, defs, fuel) {
        var j :| 0 <= j < |y| && y[j].key == x[i].key;
      }
    }
  }

  lemma {:induction false} EqFieldAccepts(f: Field, g: Field, inst: Json, defs: Defs, fuel: nat)
    requires f.key == g.key && WellKeyed(f.value) && WellKeyed(g.value) && Eq(f.value, g.value, true)
    ensures AcceptsField(f, inst, defs, fuel) <==> AcceptsField(g, inst, defs, fuel)
    decreases f, 0
  {
    if f.key == "const" {
      EqSymmetric(f.value, g.value, true);
      EqBoth(inst, f.value, g.value);
    } else if f.key == "enum" {
      if f.value.Arr? { EqEnums(f.value.items, g.value.items, inst); }
    } else if f.key == "properties" {
      if f.value.Obj? && inst.Obj? { EqPropertiesAccept(f.value.fields, g.value.fields, inst.fields, defs, fuel); }
    } else if f.key in {"anyOf", "oneOf", "allOf"} {
      if f.value.Arr? { EqCounts(f.value.items, g.value.items, inst, defs, fuel); }
    }
  }

  lemma EqEnums(x: seq<Json>, y: seq<Json>, inst: Json)
    requires |x| == |y| && forall i :: 0 <= i < |x| ==> WellKeyed(x[i]) && WellKeyed(y[i]) && Eq(x[i], y[i], true)
    ensures (exists i :: 0 <= i < |x| && Eq(inst, x[i], true)) <==> exists i :: 0 <= i < |y| && Eq(inst, y[i], true)
  {
    forall i | 0 <= i < |x| ensures Eq(inst, x[i], true) <==> Eq(inst, y[i], true) {
      EqSymmetric(x[i], y[i], true);
      EqBoth(inst, x[i], y[i]);
    }
  }

  lemma EqBoth(inst: Json, a: Json, b: Json)
    requires Eq(a, b, true) && Eq(b, a, true)
    ensures Eq(inst, a, true) <==> Eq(inst, b, true)
  {
    if Eq(inst, a, true) { EqTransitive(inst, a, b, true); }
    if Eq(inst, b, true) { EqTransitive(inst, b, a, true); }
  }

  lemma {:induction false} EqPropertiesAccept(x: seq<Field>, y: seq<Field>, inst: seq<Field>, defs: Defs, fuel: nat)
    requires WellKeyed(Obj(x)) && WellKeyed(Obj(y)) && Eq(Obj(x), Obj(y), true)
    ensures AcceptsProperties(x, inst, defs, fuel) <==> AcceptsProperties(y, inst, defs, fuel)
    decreases x, 0
  {
    forall i | 0 <= i < |x| && Has(inst, x[i].key)
      ensures Accepts(x[i].value, Get(inst, x[i].key).value, defs, fuel)
              <==> Accepts(Get(y, x[i].key).value, Get(inst, x[i].key).value, defs, fuel)
    {
      var j := GotAt(y, x[i].key);
      EqAccepts(x[i].value, y[j].value, Get(inst, x[i].key).value, defs, fuel);
    }
    forall j | 0 <= j < |y|
      ensures exists i :: 0 <= i < |x| && x[i].key == y[j].key && Get(y, x[i].key).value == y[j].value
    {
      var i :| 0 <= i < |x| && x[i].key == y[j].key;
      GetAt(y, j);
    }
    if AcceptsProperties(y, inst, defs, fuel) {
      forall i | 0 <= i < |x| && Has(inst, x[i].key)
        ensures Accepts(x[i].value, Get(inst, x[i].key).value, defs, fuel)
      {
        var j := GotAt(y, x[i].key);
      }
    }
  }

  lemma {:induction false} EqCounts(x: seq<Json>, y: seq<Json>, inst: Json, defs: Defs, fuel: nat)
    requires |x| == |y| && forall i :: 0 <= i < |x| ==> WellKeyed(x[i]) && WellKeyed(y[i]) && Eq(x[i], y[i], true)
    ensures Count(x, inst, defs, fuel) == Count(y, inst, defs, fuel)
    decreases x, 0
  {
    if x != [] {
      EqAccepts(x[0], y[0], inst, defs, fuel);
      EqCounts(x[1..], y[1..], inst, defs, fuel);
    }
  }

  // ---------------------------------------------------------------------------
  // Inlining without an exit
  // ---------------------------------------------------------------------------

  /** `fields` do not say anything else about `f`'s keyword: they do not have it, or equal to `f`'s as JSON. */
  ghost predicate Agrees(fields: seq<Field>, f: Field) {
    Has(fields, f.key) ==>
      var own := Get(fields, f.key).value;
      WellKeyed(own) && WellKeyed(f.value) && Eq(own, f.value, true)
  }

  /** Beside what a reference stands for, a node may only annotate, or say what that does not say or says the same. */
  ghost predicate SiblingsFit(target: Json, rest: seq<Field>) {
    UniqueKeys(rest) &&
    forall i :: 0 <= i < |rest| && rest[i].key in KEYWORDS ==> target.Obj? && Agrees(target.fields, rest[i])
  }

  /** Inlining `node` follows every reference that matters to what it accepts: none is unresolved, recursive, too
      deep or past the budget, and keywords have the shapes the draft gives them. */
  ghost predicate Clean(node: Json, defs: Defs, seen: seq<string>, budget: int)
    requires |seen| <= REF_DEPTH
    decreases REF_DEPTH - |seen|, node, 2
  {
    node.Obj? ==>
      var fields := node.fields;
      && UniqueKeys(fields)
      && (match RefOf(fields)
          case None => CleanFields(fields, false, defs, seen, budget)
          case Some(ref) =>
            var name := Target(ref);
            && name.Some? && name.value in defs && name.value !in seen && |seen| < REF_DEPTH
            && var paid := budget - Size(defs[name.value]);
            && paid >= 0
            && var (target, left) := Inline(defs[name.value], defs, seen + [name.value], paid);
            && Clean(defs[name.value], defs, seen + [name.value], paid)
            && CleanFields(fields, true, defs, seen, left)
            && SiblingsFit(target, InlineFields(fields, true, defs, seen, left).0))
  }

  ghost predicate CleanFields(fields: seq<Field>, skipRef: bool, defs: Defs, seen: seq<string>, budget: int)
    requires |seen| <= REF_DEPTH
    decreases REF_DEPTH - |seen|, fields, 1
  {
    if fields == [] then true
    else if skipRef && fields[0].key == "$ref" then CleanFields(fields[1..], skipRef, defs, seen, budget)
    else
      && CleanField(fields[0], defs, seen, budget)
      && CleanFields(fields[1..], skipRef, defs, seen, Inline(fields[0].value, defs, seen, budget).1)
  }

  ghost predicate CleanField(f: Field, defs: Defs, seen: seq<string>, budget: int)
    requires |seen| <= REF_DEPTH
    decreases REF_DEPTH - |seen|, f, 0
  {
    if f.key == "properties" then
      f.value.Obj? ==> RefOf(f.value.fields).None? && CleanProperties(f.value.fields, defs, seen, budget)
    else if f.key in {"anyOf", "oneOf", "allOf"} then
      !f.value.Obj? && (f.value.Arr? ==> CleanItems(f.value.items, defs, seen, budget))
    else if f.key in {"enum", "required"} then
      !f.value.Obj? && (f.value.Arr? ==> forall i :: 0 <= i < |f.value.items| ==> Scalar(f.value.items[i]))
    else if f.key == "const" then Scalar(f.value)
    else f.key in {"type", "$ref"} ==> !f.value.Obj?
  }

  ghost predicate CleanProperties(props: seq<Field>, defs: Defs, seen: seq<string>, budget: int)
    requires |seen| <= REF_DEPTH
    decreases REF_DEPTH - |seen|, props, 0
  {
    props != [] ==>
      && Clean(props[0].value, defs, seen, budget)
      && CleanProperties(props[1..], defs, seen, Inline(props[0].value, defs, seen, budget).1)
  }

  ghost predicate CleanItems(items: seq<Json>, defs: Defs, seen: seq<string>, budget: int)
    requires |seen| <= REF_DEPTH
    decreases REF_DEPTH - |seen|, items, 0
  {
    items != [] ==>
      && Clean(items[0], defs, seen, budget)
      && CleanItems(items[1..], defs, seen, Inline(items[0], defs, seen, budget).1)
  }

  // ---------------------------------------------------------------------------
  // Setting keys
  // ---------------------------------------------------------------------------

  lemma AcceptsFirst(fields: seq<Field>, inst: Json, defs: Defs, fuel: nat)
    requires fields != []
    ensures AcceptsFields(fields, inst, defs, fuel)
            <==> AcceptsField(fields[0], inst, defs, fuel) && AcceptsFields(fields[1..], inst, defs, fuel)
  {
    assert forall i :: 1 <= i < |fields| ==> fields[i] == fields[1..][i - 1];
    assert forall i :: 0 <= i < |fields| - 1 ==> fields[1..][i] == fields[i + 1];
  }

  lemma {:induction false} PutGet(fields: seq<Field>, f: Field, key: string)
    requires key != f.key
    ensures Get(Put(fields, f), key) == Get(fields, key)
  {
    var put := Put(fields, f);
    if fields == [] {
      assert put[1..] == [];
    } else if fields[0].key == f.key {
      assert put[1..] == fields[1..];
    } else {
      PutGet(fields[1..], f, key);
      assert put[1..] == Put(fields[1..], f);
    }
  }

  lemma {:induction false} PutAccepts(fields: seq<Field>, f: Field, inst: Json, defs: Defs, fuel: nat)
    requires f.key in KEYWORDS ==> Agrees(fields, f)
    ensures AcceptsFields(Put(fields, f), inst, defs, fuel)
            <==> AcceptsFields(fields, inst, defs, fuel) && AcceptsField(f, inst, defs, fuel)
  {
    var put := Put(fields, f);
    AcceptsFirst(put, inst, defs, fuel);
    if fields == [] {
      assert put[1..] == [];
    } else {
      AcceptsFirst(fields, inst, defs, fuel);
      if fields[0].key == f.key {
        assert put[1..] == fields[1..];
        if f.key in KEYWORDS { EqFieldAccepts(fields[0], f, inst, defs, fuel); }
      } else {
        assert Get(fields[1..], f.key) == Get(fields, f.key);
        PutAccepts(fields[1..], f, inst, defs, fuel);
        assert put[1..] == Put(fields[1..], f);
      }
    }
  }

  /** Merged without a clash, two sets of fields accept what both accept. */
  lemma {:induction false} OverrideAccepts(base: seq<Field>, over: seq<Field>, inst: Json, defs: Defs, fuel: nat)
    requires SiblingsFit(Obj(base), over)
    ensures AcceptsFields(Override(base, over), inst, defs, fuel)
            <==> AcceptsFields(base, inst, defs, fuel) && AcceptsFields(over, inst, defs, fuel)
    decreases |over|
  {
    if over != [] {
      var put := Put(base, over[0]);
      forall i | 0 <= i < |over| - 1 && over[1..][i].key in KEYWORDS ensures Agrees(put, over[1..][i]) {
        assert over[1..][i] == over[i + 1];
        PutGet(base, over[0], over[i + 1].key);
      }
      PutAccepts(base, over[0], inst, defs, fuel);
      OverrideAccepts(put, over[1..], inst, defs, fuel);
      AcceptsFirst(over, inst, defs, fuel);
    }
  }

  // ---------------------------------------------------------------------------
  // Inlining preserves meaning
  // ---------------------------------------------------------------------------

  /** The fields but `$ref`. */
  ghost predicate AcceptsOthers(fields: seq<Field>, inst: Json, defs: Defs, fuel: nat) {
    forall i :: 0 <= i < |fields| && fields[i].key != "$ref" ==> AcceptsField(fields[i], inst, defs, fuel)
  }

  /** The one reference of a node and the rest of it. */
  lemma RefAndOthers(fields: seq<Field>, inst: Json, defs: Defs, fuel: nat)
    requires UniqueKeys(fields) && RefOf(fields).Some?
    ensures AcceptsFields(fields, inst, defs, fuel) <==>
      && AcceptsField(Field("$ref", Str(RefOf(fields).value)), inst, defs, fuel)
      && AcceptsOthers(fields, inst, defs, fuel)
  {
    var k := RefAt(fields);
    assert forall i :: 0 <= i < |fields| && fields[i].key == "$ref" ==> i == k;
  }

  lemma {:induction false} RefAt(fields: seq<Field>) returns (k: nat)
    requires RefOf(fields).Some?
    ensures k < |fields| && fields[k] == Field("$ref", Str(RefOf(fields).value))
  {
    if IsRef(fields[0]) {
      k := 0;
    } else {
      k := RefAt(fields[1..]);
      k := k + 1;
    }
  }

  lemma ExpandedAccepts(fields: seq<Field>, name: string, target: Json, rest: seq<Field>, defs: Defs, inst: Json,
                        fuel: nat)
    requires UniqueKeys(fields) && RefOf(fields).Some? && fuel > 0
    requires Target(RefOf(fields).value) == Some(name) && name in defs && SiblingsFit(target, rest)
    requires Accepts(target, inst, map[], 0) <==> Accepts(defs[name], inst, defs, fuel - 1)
    requires AcceptsFields(rest, inst, map[], 0) <==> AcceptsOthers(fields, inst, defs, fuel)
    ensures Accepts(if target.Obj? then Obj(Override(target.fields, rest)) else target, inst, map[], 0)
            <==> AcceptsFields(fields, inst, defs, fuel)
  {
    RefAndOthers(fields, inst, defs, fuel);
    if target.Obj? { OverrideAccepts(target.fields, rest, inst, map[], 0); }
  }

  /** The inlined schema accepts exactly the instances the original accepts with its references resolved, to
      whatever depth from `REF_DEPTH` on; it has no references left to resolve. */
  lemma {:induction false} InlineAccepts(node: Json, defs: Defs, seen: seq<string>, budget: int, inst: Json, fuel: nat)
    requires |seen| <= REF_DEPTH && fuel + |seen| >= REF_DEPTH && Clean(node, defs, seen, budget)
    ensures Accepts(Inline(node, defs, seen, budget).0, inst, map[], 0) <==> Accepts(node, inst, defs, fuel)
    decreases REF_DEPTH - |seen|, node, 2
  {
    if node.Obj? {
      var fields := node.fields;
      if RefOf(fields).None? {
        InlineFieldsAccept(fields, false, defs, seen, budget, inst, fuel);
        assert Inline(node, defs, seen, budget).0 == Obj(InlineFields(fields, false, defs, seen, budget).0);
      } else {
        InlineRefAccepts(fields, defs, seen, budget, inst, fuel);
        assert Inline(node, defs, seen, budget) == Inline(Obj(fields), defs, seen, budget);
      }
    }
  }

  lemma {:induction false} InlineRefAccepts(fields: seq<Field>, defs: Defs, seen: seq<string>, budget: int,
                                            inst: Json, fuel: nat)
    requires |seen| <= REF_DEPTH && fuel + |seen| >= REF_DEPTH && Clean(Obj(fields), defs, seen, budget)
    requires RefOf(fields).Some?
    ensures Accepts(Inline(Obj(fields), defs, seen, budget).0, inst, map[], 0)
        <==> AcceptsFields(fields, inst, defs, fuel)
    decreases REF_DEPTH - |seen|, fields, 2
  {
    var name, paid, target, left, rest := ExpandRef(fields, defs, seen, budget);
    assert Accepts(target, inst, map[], 0) <==> Accepts(defs[name], inst, defs, fuel - 1) by {
      InlineAccepts(defs[name], defs, seen + [name], paid, inst, fuel - 1);
    }
    assert AcceptsFields(rest, inst, map[], 0) <==> AcceptsOthers(fields, inst, defs, fuel) by {
      InlineFieldsAccept(fields, true, defs, seen, left, inst, fuel);
    }
    ExpandedAccepts(fields, name, target, rest, defs, inst, fuel);
  }

  /** The parts of a clean expansion. */
  lemma ExpandRef(fields: seq<Field>, defs: Defs, seen: seq<string>, budget: int)
    returns (name: string, paid: int, target: Json, left: int, rest: seq<Field>)
    requires |seen| <= REF_DEPTH && Clean(Obj(fields), defs, seen, budget) && RefOf(fields).Some?
    ensures UniqueKeys(fields) && |seen| < REF_DEPTH
    ensures Target(RefOf(fields).value) == Some(name) && name in defs
    ensures Clean(defs[name], defs, seen + [name], paid)
        && Inline(defs[name], defs, seen + [name], paid) == (target, left)
    ensures CleanFields(fields, true, defs, seen, left) && rest == InlineFields(fields, true, defs, seen, left).0
    ensures SiblingsFit(target, rest)
    ensures Inline(Obj(fields), defs, seen, budget).0 == if target.Obj? then Obj(Override(target.fields, rest))
        else target
  {
    name := Target(RefOf(fields).value).value;
    paid := budget - Size(defs[name]);
    target := Inline(defs[name], defs, seen + [name], paid).0;
    left := Inline(defs[name], defs, seen + [name], paid).1;
    rest := InlineFields(fields, true, defs, seen, left).0;
  }

  lemma {:induction false} InlineFieldsAccept(
    fields: seq<Field>, skipRef: bool, defs: Defs, seen: seq<string>, budget: int, inst: Json, fuel: nat)
    requires |seen| <= REF_DEPTH && fuel + |seen| >= REF_DEPTH && CleanFields(fields, skipRef, defs, seen, budget)
    requires !skipRef ==> RefOf(fields).None?
    ensures AcceptsFields(InlineFields(fields, skipRef, defs, seen, budget).0, inst, map[], 0)
            <==> if skipRef then AcceptsOthers(fields, inst, defs, fuel) else AcceptsFields(fields, inst, defs, fuel)
    decreases REF_DEPTH - |seen|, fields, 1
  {
    if fields != [] {
      AcceptsFirst(fields, inst, defs, fuel);
      OthersFirst(fields, inst, defs, fuel);
      if skipRef && fields[0].key == "$ref" {
        InlineFieldsAccept(fields[1..], skipRef, defs, seen, budget, inst, fuel);
      } else {
        var (first, left) := Inline(fields[0].value, defs, seen, budget);
        var rest := InlineFields(fields[1..], skipRef, defs, seen, left).0;
        var out := [Field(fields[0].key, first)] + rest;
        InlineFieldAccepts(fields[0], defs, seen, budget, inst, fuel);
        InlineFieldsAccept(fields[1..], skipRef, defs, seen, left, inst, fuel);
        AcceptsFirst(out, inst, map[], 0);
        assert out[1..] == rest;
      }
    }
  }

  lemma OthersFirst(fields: seq<Field>, inst: Json, defs: Defs, fuel: nat)
    requires fields != []
    ensures AcceptsOthers(fields, inst, defs, fuel) <==>
      && (fields[0].key != "$ref" ==> AcceptsField(fields[0], inst, defs, fuel))
      && AcceptsOthers(fields[1..], inst, defs, fuel)
  {
    assert forall i :: 1 <= i < |fields| ==> fields[i] == fields[1..][i - 1];
    assert forall i :: 0 <= i < |fields| - 1 ==> fields[1..][i] == fields[i + 1];
  }

  lemma {:induction false} InlineFieldAccepts(
    f: Field, defs: Defs, seen: seq<string>, budget: int, inst: Json, fuel: nat)
    requires |seen| <= REF_DEPTH && fuel + |seen| >= REF_DEPTH && CleanField(f, defs, seen, budget) && !IsRef(f)
    ensures AcceptsField(Field(f.key, Inline(f.value, defs, seen, budget).0), inst, map[], 0)
            <==> AcceptsField(f, inst, defs, fuel)
    decreases REF_DEPTH - |seen|, f, 0
  {
    if f.key == "properties" {
      if f.value.Obj? && inst.Obj? {
        InlinePropertiesAccept(f.value.fields, defs, seen, budget, inst.fields, fuel);
      }
    } else if f.key in {"anyOf", "oneOf", "allOf"} {
      if f.value.Arr? { InlineCounts(f.value.items, defs, seen, budget, inst, fuel); }
    } else {
      PlainField(f, defs, seen, budget, inst, fuel);
    }
  }

  /** A field that holds no schema keeps its value. */
  lemma PlainField(f: Field, defs: Defs, seen: seq<string>, budget: int, inst: Json, fuel: nat)
    requires |seen| <= REF_DEPTH && CleanField(f, defs, seen, budget) && !IsRef(f)
    requires f.key !in {"properties", "anyOf", "oneOf", "allOf"}
    ensures AcceptsField(Field(f.key, Inline(f.value, defs, seen, budget).0), inst, map[], 0)
            <==> AcceptsField(f, inst, defs, fuel)
  {
    if f.key in {"enum", "required"} && f.value.Arr? { InlineScalars(f.value.items, defs, seen, budget); }
  }

  lemma {:induction false} InlineScalars(items: seq<Json>, defs: Defs, seen: seq<string>, budget: int)
    requires |seen| <= REF_DEPTH && forall i :: 0 <= i < |items| ==> Scalar(items[i])
    ensures InlineItems(items, defs, seen, budget) == (items, budget)
  {
    if items != [] {
      InlineScalars(items[1..], defs, seen, budget);
      assert items == [items[0]] + items[1..];
    }
  }

  lemma {:induction false} InlinePropertiesAccept(
    props: seq<Field>, defs: Defs, seen: seq<string>, budget: int, inst: seq<Field>, fuel: nat)
    requires |seen| <= REF_DEPTH && fuel + |seen| >= REF_DEPTH && CleanProperties(props, defs, seen, budget)
    ensures AcceptsProperties(InlineFields(props, false, defs, seen, budget).0, inst, map[], 0)
            <==> AcceptsProperties(props, inst, defs, fuel)
    decreases REF_DEPTH - |seen|, props, 0
  {
    if props != [] {
      var (first, left) := Inline(props[0].value, defs, seen, budget);
      var rest := InlineFields(props[1..], false, defs, seen, left).0;
      var out := [Field(props[0].key, first)] + rest;
      if Has(inst, props[0].key) {
        InlineAccepts(props[0].value, defs, seen, budget, Get(inst, props[0].key).value, fuel);
      }
      InlinePropertiesAccept(props[1..], defs, seen, left, inst, fuel);
      PropertiesFirst(props, inst, defs, fuel);
      PropertiesFirst(out, inst, map[], 0);
      assert out[1..] == rest;
    }
  }

  lemma PropertiesFirst(props: seq<Field>, inst: seq<Field>, defs: Defs, fuel: nat)
    requires props != []
    ensures AcceptsProperties(props, inst, defs, fuel) <==>
      && (Has(inst, props[0].key) ==> Accepts(props[0].value, Get(inst, props[0].key).value, defs, fuel))
      && AcceptsProperties(props[1..], inst, defs, fuel)
  {
    assert forall i :: 1 <= i < |props| ==> props[i] == props[1..][i - 1];
    assert forall i :: 0 <= i < |props| - 1 ==> props[1..][i] == props[i + 1];
  }

  lemma {:induction false} InlineCounts(
    items: seq<Json>, defs: Defs, seen: seq<string>, budget: int, inst: Json, fuel: nat)
    requires |seen| <= REF_DEPTH && fuel + |seen| >= REF_DEPTH && CleanItems(items, defs, seen, budget)
    ensures Count(InlineItems(items, defs, seen, budget).0, inst, map[], 0) == Count(items, inst, defs, fuel)
    decreases REF_DEPTH - |seen|, items, 0
  {
    if items != [] {
      var (first, left) := Inline(items[0], defs, seen, budget);
      var rest := InlineItems(items[1..], defs, seen, left).0;
      InlineAccepts(items[0], defs, seen, budget, inst, fuel);
      InlineCounts(items[1..], defs, seen, left, inst, fuel);
      assert ([first] + rest)[1..] == rest;
    }
  }

  /** The whole pass: with its references followed, a schema means what it meant. */
  lemma InliningKeepsMeaning(schema: Json, defs: Defs, inst: Json, fuel: nat)
    requires Clean(schema, defs, [], NODE_BUDGET) && fuel >= REF_DEPTH
    ensures Accepts(Inline(schema, defs, [], NODE_BUDGET).0, inst, map[], 0) <==> Accepts(schema, inst, defs, fuel)
  {
    InlineAccepts(schema, defs, [], NODE_BUDGET, inst, fuel);
  }
}
