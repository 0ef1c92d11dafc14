/** Keywords beside a reference (arslan/llm/tool_schema.py, `_inline`): a sibling replaces the definition's own
    keyword, where the draft asks for both. When that is safe whatever the definition says. */
module SchemaSiblings {
  import opened Wrappers
  import opened Json
  import opened SchemaInline
  import opened SchemaMeaning

  /** Whatever the definition, joining the sibling to it accepts what both accept. */
  ghost predicate SafeBeside(f: Field) {
    forall base: seq<Field>, inst: Json :: JoinsBeside(f, base, inst)
  }

  ghost predicate JoinsBeside(f: Field, base: seq<Field>, inst: Json) {
    AcceptsFields(Override(base, [f]), inst, map[], 0)
    <==> AcceptsFields(base, inst, map[], 0) && AcceptsField(f, inst, map[], 0)
  }

  ghost predicate RefusesAll(f: Field) {
    forall inst: Json :: !AcceptsField(f, inst, map[], 0)
  }

  lemma OverrideOne(base: seq<Field>, f: Field)
    ensures Override(base, [f]) == Put(base, f)
  {
    assert [f][1..] == [];
  }

  lemma {:induction false} PutAt(fields: seq<Field>, f: Field) returns (i: nat)
    ensures i < |Put(fields, f)| && Put(fields, f)[i] == f
  {
    if fields == [] || fields[0].key == f.key {
      i := 0;
    } else {
      i := PutAt(fields[1..], f);
      i := i + 1;
    }
  }

  lemma RefusingIsSafe(f: Field)
    requires RefusesAll(f)
    ensures SafeBeside(f)
  {
    forall base: seq<Field>, inst: Json ensures JoinsBeside(f, base, inst) {
      OverrideOne(base, f);
      var i := PutAt(base, f);
      assert !AcceptsField(Put(base, f)[i], inst, map[], 0);
    }
  }

  lemma AnnotationIsSafe(f: Field)
    requires f.key !in KEYWORDS
    ensures SafeBeside(f)
  {
    forall base: seq<Field>, inst: Json ensures JoinsBeside(f, base, inst) {
      OverrideOne(base, f);
      PutAccepts(base, f, inst, map[], 0);
    }
  }

  // ---------------------------------------------------------------------------
  // A definition that clashes
  // ---------------------------------------------------------------------------

  function LongestKey(fields: seq<Field>): (n: nat)
    ensures forall i :: 0 <= i < |fields| ==> |fields[i].key| <= n
  {
    if fields == [] then 0
    else
      var rest := LongestKey(fields[1..]);
      assert forall i :: 1 <= i < |fields| ==> fields[i] == fields[1..][i - 1];
      if |fields[0].key| > rest then |fields[0].key| else rest
  }

  /** A key longer than all there are. */
  function NewKey(fields: seq<Field>): (key: string)
    ensures !Has(fields, key)
  {
    seq(LongestKey(fields) + 1, _ => 'x')
  }

  /** Inlining leaves the value as it is, at no cost: it holds no reference. */
  ghost predicate Settled(value: Json) {
    forall defs: Defs, seen: seq<string>, budget: int :: |seen| <= REF_DEPTH ==>
      Inline(value, defs, seen, budget) == (value, budget)
  }

  lemma ScalarsAreSettled(items: seq<Json>)
    requires forall i :: 0 <= i < |items| ==> Scalar(items[i])
    ensures Settled(Arr(items))
  {
    forall defs: Defs, seen: seq<string>, budget: int | |seen| <= REF_DEPTH
      ensures Inline(Arr(items), defs, seen, budget) == (Arr(items), budget)
    {
      InlineScalars(items, defs, seen, budget);
    }
  }

  lemma OneFieldInlined(f: Field, skipRef: bool, defs: Defs, seen: seq<string>, budget: int)
    requires f.key != "$ref" && Settled(f.value) && |seen| <= REF_DEPTH
    ensures InlineFields([f], skipRef, defs, seen, budget) == ([f], budget)
    ensures Inline(Obj([f]), defs, seen, budget) == (Obj([f]), budget)
  {
    assert [f][1..] == [];
    assert InlineFields([], skipRef, defs, seen, budget) == ([], budget);
    assert InlineFields([], false, defs, seen, budget) == ([], budget);
    assert [f] + [] == [f];
  }

  /** `other` refuses `inst`, whatever references stand for. */
  ghost predicate Refuses(other: Field, inst: Json) {
    forall defs: Defs, fuel: nat :: !AcceptsField(other, inst, defs, fuel)
  }

  /** An instance the sibling accepts and another value of its keyword, small and without references, refuses. */
  ghost predicate Clashes(f: Field, other: Field, inst: Json) {
    && other.key == f.key && AcceptsField(f, inst, map[], 0) && Refuses(other, inst)
    && Settled(other.value) && Size(Obj([other])) <= 4
  }

  lemma SmallField(f: Field)
    requires Size(f.value) <= 3
    ensures Size(Obj([f])) <= 4
  {
    assert [f][1..] == [];
    assert SizeFields([f]) == Size(f.value) + SizeFields([]);
  }

  lemma SmallArray(items: seq<Json>)
    requires |items| <= 1 && forall i :: 0 <= i < |items| ==> Scalar(items[i])
    ensures Size(Arr(items)) <= 2
  {
    if items != [] {
      assert items[1..] == [];
      assert SizeItems(items) == Size(items[0]) + SizeItems([]);
    }
  }

  lemma ClashingRequired(f: Field) returns (other: Field, inst: Json)
    requires f.key == "required"
    ensures Clashes(f, other, inst)
  {
    var fields := if f.value.Arr? then WithKeys(f.value.items) else [];
    inst := Obj(fields);
    var key := Str(NewKey(fields));
    other := Field("required", Arr([key]));
    assert [key][0] == key && Refuses(other, inst);
    ScalarsAreSettled([key]);
    SmallArray([key]);
    SmallField(other);
  }

  lemma SmallNever(f: Field)
    requires Scalar(f.value)
    ensures Size(Obj([f])) <= 3
  {
    assert [f][1..] == [];
    assert SizeFields([f]) == Size(f.value) + SizeFields([]);
  }

  lemma ClashingProperties(f: Field) returns (other: Field, inst: Json)
    requires f.key == "properties"
    ensures Clashes(f, other, inst)
  {
    var props := if f.value.Obj? then f.value.fields else [];
    var key := NewKey(props);
    inst := Obj([Field(key, Null)]);
    assert forall k :: Has(inst.fields, k) <==> k == key by { assert inst.fields[0].key == key; }
    var never := Field(key, Bool(false));
    other := Field("properties", Obj([never]));
    assert [never][0] == never;
    forall defs: Defs, fuel: nat ensures !AcceptsField(other, inst, defs, fuel) {
      assert !AcceptsProperties([never], inst.fields, defs, fuel);
    }
    assert key[0] == 'x' && key != "$ref";
    forall defs: Defs, seen: seq<string>, budget: int | |seen| <= REF_DEPTH
      ensures Inline(other.value, defs, seen, budget) == (other.value, budget)
    {
      OneFieldInlined(never, false, defs, seen, budget);
    }
    SmallNever(never);
    SmallField(other);
  }

  lemma ClashingOther(f: Field, inst: Json) returns (other: Field)
    requires f.key in {"type", "const", "enum", "anyOf", "oneOf", "allOf"} && AcceptsField(f, inst, map[], 0)
    ensures Clashes(f, other, inst)
  {
    if f.key == "type" || f.key == "const" {
      other := Field(f.key, if f.key == "type" then Str(if inst.Null? then "object" else "null")
                            else if inst.Null? then Bool(true) else Null);
    } else {
      var items := if f.key == "allOf" then [Bool(false)] else [];
      other := Field(f.key, Arr(items));
      ScalarsAreSettled(items);
      SmallArray(items);
      CountNone(items, inst);
    }
    SmallField(other);
  }

  lemma CountNone(items: seq<Json>, inst: Json)
    requires items == [] || items == [Bool(false)]
    ensures forall defs: Defs, fuel: nat :: Count(items, inst, defs, fuel) == 0
  {
    if items != [] { assert items[1..] == []; }
  }

  lemma Clash(f: Field) returns (other: Field, inst: Json)
    requires f.key in KEYWORDS && f.key != "$ref" && !RefusesAll(f)
    ensures Clashes(f, other, inst)
  {
    if f.key == "required" {
      other, inst := ClashingRequired(f);
    } else if f.key == "properties" {
      other, inst := ClashingProperties(f);
    } else {
      inst :| AcceptsField(f, inst, map[], 0);
      other := ClashingOther(f, inst);
    }
  }

  lemma ClashIsUnsafe(f: Field, other: Field, inst: Json)
    requires Clashes(f, other, inst)
    ensures !SafeBeside(f)
  {
    OverrideOne([other], f);
    assert Put([other], f) == [f] + [other][1..] == [f];
    AcceptsFirst([f], inst, map[], 0);
    assert AcceptsFields([f], inst, map[], 0);
    assert !AcceptsField([other][0], inst, map[], 0);
    assert !AcceptsFields([other], inst, map[], 0);
    assert !JoinsBeside(f, [other], inst);
  }

  /** A sibling is safe beside every definition exactly when it is no keyword, or one that accepts nothing at all:
      any other replaces something a definition could say. */
  lemma SafeSiblingIff(f: Field)
    requires f.key != "$ref"
    ensures SafeBeside(f) <==> f.key !in KEYWORDS || RefusesAll(f)
  {
    if f.key !in KEYWORDS {
      AnnotationIsSafe(f);
    } else if RefusesAll(f) {
      RefusingIsSafe(f);
    } else {
      var other, inst := Clash(f);
      ClashIsUnsafe(f, other, inst);
    }
  }

  // ---------------------------------------------------------------------------
  // Keyword by keyword
  // ---------------------------------------------------------------------------

  const TYPES := {"null", "boolean", "number", "integer", "string", "array", "object"}

  function OneOf(kind: string): Json {
    if kind == "null" then Null else if kind == "boolean" then Bool(true)
    else if kind == "number" || kind == "integer" then Num(0.0)
    else if kind == "string" then Str("") else if kind == "array" then Arr([]) else Obj([])
  }

  lemma OneOfHasType(kind: string)
    requires kind in TYPES
    ensures HasType(OneOf(kind), kind)
  {
    assert (0.0).Floor == 0;
  }

  /** Which keywords accept nothing: an unknown type and an empty enum; never `const`, `required` or `properties`. */
  ghost predicate PlainlyRefuses(f: Field) {
    || (f.key == "type" && f.value.Str? && f.value.s !in TYPES)
    || (f.key == "enum" && f.value == Arr([]))
  }

  lemma AcceptsSomething(f: Field) returns (inst: Json)
    requires f.key in {"type", "const", "enum", "required", "properties"} && WellKeyed(f.value) && !PlainlyRefuses(f)
    ensures AcceptsField(f, inst, map[], 0)
  {
    inst := Null;
    if f.key == "type" {
      if f.value.Str? {
        inst := OneOf(f.value.s);
        OneOfHasType(f.value.s);
      }
    } else if f.key == "const" {
      inst := f.value;
      EqReflexive(f.value, true);
    } else if f.key == "enum" && f.value.Arr? {
      inst := f.value.items[0];
      EqReflexive(inst, true);
    }
  }

  /** So a keyword other than a combiner is safe beside every definition exactly when it is an unknown type or an
      empty enum. */
  lemma PlainSiblingIff(f: Field)
    requires f.key in {"type", "const", "enum", "required", "properties"} && WellKeyed(f.value)
    ensures SafeBeside(f) <==> PlainlyRefuses(f)
  {
    SafeSiblingIff(f);
    if !PlainlyRefuses(f) {
      var inst := AcceptsSomething(f);
      assert !RefusesAll(f);
    }
  }

  /** Too few branches accept `inst`, or under `oneOf` too many. */
  ghost predicate Miscounts(f: Field, inst: Json)
    requires f.value.Arr?
  {
    var n := Count(f.value.items, inst, map[], 0);
    if f.key == "anyOf" then n == 0 else if f.key == "oneOf" then n != 1 else n < |f.value.items|
  }

  /** A combiner is safe exactly when no instance satisfies as many of its branches as it asks for. */
  lemma CombinerSiblingIff(f: Field)
    requires f.key in {"anyOf", "oneOf", "allOf"}
    ensures SafeBeside(f) <==> f.value.Arr? && forall inst: Json :: Miscounts(f, inst)
  {
    SafeSiblingIff(f);
    if f.value.Arr? {
      forall inst: Json ensures AcceptsField(f, inst, map[], 0) <==> !Miscounts(f, inst) {}
    } else {
      assert AcceptsField(f, Null, map[], 0);
    }
  }

  // ---------------------------------------------------------------------------
  // The whole pass
  // ---------------------------------------------------------------------------

  /** A reference beside a sibling whose keyword its definition is all about: the inlined schema is the sibling. */
  lemma SiblingWins(f: Field, other: Field, name: string)
    requires '/' !in name && f.key == other.key != "$ref" && Settled(f.value) && Settled(other.value)
    requires Size(Obj([other])) <= NODE_BUDGET
    ensures Inline(Obj([Field("$ref", Str(DEFS_PREFIX + "/" + name)), f]), map[name := Obj([other])], [], NODE_BUDGET).0
      == Obj([f])
  {
    var defs: Defs := map[name := Obj([other])];
    var ref := Field("$ref", Str(DEFS_PREFIX + "/" + name));
    var fields, paid := [ref, f], NODE_BUDGET - Size(Obj([other]));
    TargetOfDefs(name);
    OneFieldInlined(other, false, defs, [] + [name], paid);
    SiblingInlined(ref, f, defs, paid);
    OverrideOne([other], f);
    assert Put([other], f) == [f] + [other][1..] == [f];
  }

  lemma SiblingInlined(ref: Field, f: Field, defs: Defs, budget: nat)
    requires ref.key == "$ref" != f.key && Settled(f.value)
    ensures InlineFields([ref, f], true, defs, [], budget).0 == [f]
  {
    assert [ref, f][1..] == [f];
    OneFieldInlined(f, true, defs, [], budget);
  }

  /** The inlined schema accepts an instance that the original, which asks for both, does not. */
  ghost predicate ChangesMeaning(schema: Json, defs: Defs, inst: Json) {
    Accepts(Inline(schema, defs, [], NODE_BUDGET).0, inst, map[], 0) && !Accepts(schema, inst, defs, REF_DEPTH)
  }

  lemma ClashChangesMeaning(f: Field, other: Field, inst: Json, name: string)
    requires Clashes(f, other, inst) && '/' !in name && f.key != "$ref" && Settled(f.value)
    ensures ChangesMeaning(Obj([Field("$ref", Str(DEFS_PREFIX + "/" + name)), f]), map[name := Obj([other])], inst)
  {
    var defs: Defs := map[name := Obj([other])];
    SiblingWins(f, other, name);
    AcceptsFirst([f], inst, map[], 0);
    TargetOfDefs(name);
    NotBoth([Field("$ref", Str(DEFS_PREFIX + "/" + name)), f], name, other, defs, inst);
  }

  lemma NotBoth(fields: seq<Field>, name: string, other: Field, defs: Defs, inst: Json)
    requires fields != [] && IsRef(fields[0]) && Target(fields[0].value.s) == Some(name)
    requires name in defs && defs[name] == Obj([other]) && Refuses(other, inst)
    ensures !Accepts(Obj(fields), inst, defs, REF_DEPTH)
  {
    assert [other][0] == other;
    assert !AcceptsFields([other], inst, defs, REF_DEPTH - 1);
    assert !AcceptsField(fields[0], inst, defs, REF_DEPTH);
  }

  /** Every keyword that accepts anything at all can change a schema's meaning, beside a reference to some
      definition. */
  lemma ClashingSiblingChangesMeaning(f: Field, name: string) returns (other: Field, inst: Json)
    requires f.key in KEYWORDS && f.key != "$ref" && !RefusesAll(f) && Settled(f.value) && '/' !in name
    ensures ChangesMeaning(Obj([Field("$ref", Str(DEFS_PREFIX + "/" + name)), f]), map[name := Obj([other])], inst)
  {
    other, inst := Clash(f);
    ClashChangesMeaning(f, other, inst, name);
  }
}
