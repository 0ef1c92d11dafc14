/** `$ref`s replaced by what they name, within a depth and a size budget (arslan/llm/tool_schema.py, `_inline`). */
module SchemaInline {
  import opened Wrappers
  import opened Json

  type Defs = map<string, Json>

  const REF_DEPTH := 8
  const NODE_BUDGET := 5000

  // ---------------------------------------------------------------------------
  // References
  // ---------------------------------------------------------------------------

  /** The index of the last '/', if any. */
  function LastSlash(s: string): (r: Option<nat>)
    ensures r.None? <==> '/' !in s
    ensures r.Some? ==> r.value < |s| && s[r.value] == '/' && '/' !in s[r.value + 1..]
  {
    if s == "" then None
    else if s[|s| - 1] == '/' then Some(|s| - 1)
    else
      assert s == s[..|s| - 1] + [s[|s| - 1]];
      var r := LastSlash(s[..|s| - 1]);
      assert r.Some? ==> s[r.value + 1..] == s[..|s| - 1][r.value + 1..] + [s[|s| - 1]];
      r
  }

  const DEFS_PREFIX := "#/$defs"
  const DEFINITIONS_PREFIX := "#/definitions"

  /** The definition a reference names, if it is a local one. */
  function Target(ref: string): Option<string> {
    match LastSlash(ref)
    case None => None
    case Some(i) =>
      if ref[..i] == DEFS_PREFIX || ref[..i] == DEFINITIONS_PREFIX then Some(ref[i + 1..]) else None
  }

  lemma TargetOfDefs(name: string)
    requires '/' !in name
    ensures Target(DEFS_PREFIX + "/" + name) == Some(name)
  {
    var ref := DEFS_PREFIX + "/" + name;
    assert |DEFS_PREFIX| == 7;
    assert ref[..7] == DEFS_PREFIX && ref[8..] == name && ref[7] == '/';
    OnlySlash(ref, 7);
  }

  /** A reference names a definition exactly when it is its name, without a slash, after one of the two prefixes. */
  lemma TargetIff(ref: string, name: string)
    ensures Target(ref) == Some(name) <==>
      '/' !in name && (ref == "#/$defs" + "/" + name || ref == "#/definitions" + "/" + name)
  {
    if Target(ref) == Some(name) {
      var i := LastSlash(ref).value;
      assert ref == ref[..i] + [ref[i]] + ref[i + 1..];
    }
    if '/' !in name {
      TargetOfDefs(name);
      var other := DEFINITIONS_PREFIX + "/" + name;
      assert |DEFINITIONS_PREFIX| == 13;
      assert other[..13] == DEFINITIONS_PREFIX && other[14..] == name && other[13] == '/';
      OnlySlash(other, 13);
    }
  }

  lemma OnlySlash(s: string, i: nat)
    requires i < |s| && s[i] == '/' && '/' !in s[i + 1..]
    ensures LastSlash(s) == Some(i)
  {
    assert forall j :: i < j < |s| ==> s[j] == s[i + 1..][j - i - 1];
    var last := LastSlash(s).value;
    assert forall j :: last < j < |s| ==> s[j] == s[last + 1..][j - last - 1];
  }

  predicate IsRef(f: Field) {
    f.key == "$ref" && f.value.Str?
  }

  /** A node's `$ref`, when it is a string. */
  function RefOf(fields: seq<Field>): (r: Option<string>)
    ensures r.None? <==> forall i :: 0 <= i < |fields| ==> !IsRef(fields[i])
    ensures r.Some? ==> Has(fields, "$ref")
  {
    if fields == [] then None
    else if IsRef(fields[0]) then Some(fields[0].value.s)
    else
      assert forall i :: 1 <= i < |fields| ==> fields[i] == fields[1..][i - 1];
      RefOf(fields[1..])
  }

  // ---------------------------------------------------------------------------
  // Inlining
  // ---------------------------------------------------------------------------

  function Loose(why: string): Json {
    Obj([Field("type", Str("object")), Field("description", Str("(" + why + "; any shape accepted)"))])
  }

  function Clip80(s: string): string {
    if |s| <= 80 then s else s[..80]
  }

  /** A dict with one key set: in place if it is there, else last. */
  function Put(fields: seq<Field>, f: Field): seq<Field> {
    if fields == [] then [f]
    else if fields[0].key == f.key then [f] + fields[1..]
    else [fields[0]] + Put(fields[1..], f)
  }

  /** `{**base, **over}` */
  function Override(base: seq<Field>, over: seq<Field>): seq<Field>
    decreases |over|
  {
    if over == [] then base else Override(Put(base, over[0]), over[1..])
  }

  /** The inlined node, and what is left of the budget; only an expansion spends it, by the size of the
      definition it copies. `seen` holds the references on the way here. */
  function Inline(node: Json, defs: Defs, seen: seq<string>, budget: int): (Json, int)
    requires |seen| <= REF_DEPTH
    decreases REF_DEPTH - |seen|, node, 1
  {
    match node
    case Arr(items) =>
      var (out, left) := InlineItems(items, defs, seen, budget);
      (Arr(out), left)
    case Obj(fields) =>
      (match RefOf(fields)
       case None =>
         var (out, left) := InlineFields(fields, false, defs, seen, budget);
         (Obj(out), left)
       case Some(ref) =>
         var name := Target(ref);
         if name.None? || name.value !in defs then
           (Loose("a reference that cannot be followed here: " + Clip80(ref)), budget)
         else if name.value in seen then (Loose("recursive: another " + name.value), budget)
         else if |seen| >= REF_DEPTH then (Loose("nested too deep: " + name.value), budget)
         else
           var paid := budget - Size(defs[name.value]);
           if paid < 0 then (Loose("too large to spell out: " + name.value), paid)
           else
             var (target, left) := Inline(defs[name.value], defs, seen + [name.value], paid);
             var (rest, left') := InlineFields(fields, true, defs, seen, left);
             (if target.Obj? then Obj(Override(target.fields, rest)) else target, left'))
    case _ => (node, budget)
  }

  function InlineItems(items: seq<Json>, defs: Defs, seen: seq<string>, budget: int): (r: (seq<Json>, int))
    requires |seen| <= REF_DEPTH
    ensures |r.0| == |items|
    decreases REF_DEPTH - |seen|, items, 0
  {
    if items == [] then ([], budget)
    else
      var (first, left) := Inline(items[0], defs, seen, budget);
      var (rest, left') := InlineItems(items[1..], defs, seen, left);
      ([first] + rest, left')
  }

  /** Every field's value inlined in order; with `skipRef`, all but `$ref`. */
  function InlineFields(fields: seq<Field>, skipRef: bool, defs: Defs, seen: seq<string>,
                        budget: int): (seq<Field>, int)
    requires |seen| <= REF_DEPTH
    decreases REF_DEPTH - |seen|, fields, 0
  {
    if fields == [] then ([], budget)
    else if skipRef && fields[0].key == "$ref" then InlineFields(fields[1..], skipRef, defs, seen, budget)
    else
      var (first, left) := Inline(fields[0].value, defs, seen, budget);
      var (rest, left') := InlineFields(fields[1..], skipRef, defs, seen, left);
      ([Field(fields[0].key, first)] + rest, left')
  }

  // ---------------------------------------------------------------------------
  // How large it can get
  // ---------------------------------------------------------------------------

  function Left(budget: int): nat {
    if budget >= 0 then budget else 0
  }

  lemma {:induction false} PutSize(fields: seq<Field>, f: Field)
    ensures SizeFields(Put(fields, f)) <= SizeFields(fields) + Size(f.value)
  {
    if fields != [] {
      var put := Put(fields, f);
      if fields[0].key == f.key {
        assert put[1..] == fields[1..];
      } else {
        PutSize(fields[1..], f);
        assert put[1..] == Put(fields[1..], f);
      }
    }
  }

  lemma {:induction false} OverrideSize(base: seq<Field>, over: seq<Field>)
    ensures SizeFields(Override(base, over)) <= SizeFields(base) + SizeFields(over)
    decreases |over|
  {
    if over != [] {
      PutSize(base, over[0]);
      OverrideSize(Put(base, over[0]), over[1..]);
    }
  }

  lemma LooseSize(why: string)
    ensures Size(Loose(why)) == 3
  {
    var fields := Loose(why).fields;
    assert SizeFields(fields) == Size(fields[0].value) + SizeFields(fields[1..]);
    assert SizeFields(fields[1..]) == Size(fields[1].value) + SizeFields(fields[1..][1..]);
  }

  /** Twice the nodes that come out are at most three times those that went in and those paid for. */
  lemma {:induction false} InlineSize(node: Json, defs: Defs, seen: seq<string>, budget: int)
    requires |seen| <= REF_DEPTH
    ensures var (out, left) := Inline(node, defs, seen, budget);
            left <= budget && 2 * Size(out) <= 3 * (Size(node) + Left(budget) - Left(left))
    decreases REF_DEPTH - |seen|, node, 1
  {
    match node
    case Arr(items) => InlineItemsSize(items, defs, seen, budget);
    case Obj(fields) =>
      if RefOf(fields).None? {
        KeptAll(fields);
        InlineFieldsSize(fields, false, defs, seen, budget);
      } else {
        RefSize(fields);
        var name := Target(RefOf(fields).value);
        if name.Some? && name.value in defs && name.value !in seen && |seen| < REF_DEPTH {
          var paid := budget - Size(defs[name.value]);
          if paid < 0 {
            LooseSize("too large to spell out: " + name.value);
            assert Inline(node, defs, seen, budget) == (Loose("too large to spell out: " + name.value), paid);
          } else {
            var (target, left) := Inline(defs[name.value], defs, seen + [name.value], paid);
            var (rest, left') := InlineFields(fields, true, defs, seen, left);
            assert Inline(node, defs, seen, budget)
                == (if target.Obj? then Obj(Override(target.fields, rest)) else target, left');
            InlineSize(defs[name.value], defs, seen + [name.value], paid);
            InlineFieldsSize(fields, true, defs, seen, left);
            if target.Obj? { OverrideSize(target.fields, rest); }
          }
        } else {
          var why := if name.None? || name.value !in defs
            then "a reference that cannot be followed here: " + Clip80(RefOf(fields).value)
            else if name.value in seen then "recursive: another " + name.value
            else "nested too deep: " + name.value;
          LooseSize(why);
          assert Inline(node, defs, seen, budget) == (Loose(why), budget);
        }
      }
    case _ =>
  }

  lemma {:induction false} InlineItemsSize(items: seq<Json>, defs: Defs, seen: seq<string>, budget: int)
    requires |seen| <= REF_DEPTH
    ensures var (out, left) := InlineItems(items, defs, seen, budget);
            left <= budget && 2 * SizeItems(out) <= 3 * (SizeItems(items) + Left(budget) - Left(left))
    decreases REF_DEPTH - |seen|, items, 0
  {
    if items != [] {
      var (first, left) := Inline(items[0], defs, seen, budget);
      InlineSize(items[0], defs, seen, budget);
      InlineItemsSize(items[1..], defs, seen, left);
      var rest := InlineItems(items[1..], defs, seen, left).0;
      assert ([first] + rest)[1..] == rest;
    }
  }

  lemma {:induction false} InlineFieldsSize(fields: seq<Field>, skipRef: bool, defs: Defs, seen: seq<string>,
                                            budget: int)
    requires |seen| <= REF_DEPTH
    ensures var (out, left) := InlineFields(fields, skipRef, defs, seen, budget);
            left <= budget &&
            2 * SizeFields(out) <= 3 * (KeptSize(fields, skipRef) + Left(budget) - Left(left))
    decreases REF_DEPTH - |seen|, fields, 0
  {
    if fields != [] {
      if skipRef && fields[0].key == "$ref" {
        InlineFieldsSize(fields[1..], skipRef, defs, seen, budget);
      } else {
        var (first, left) := Inline(fields[0].value, defs, seen, budget);
        InlineSize(fields[0].value, defs, seen, budget);
        InlineFieldsSize(fields[1..], skipRef, defs, seen, left);
        var rest := InlineFields(fields[1..], skipRef, defs, seen, left).0;
        assert ([Field(fields[0].key, first)] + rest)[1..] == rest;
      }
    }
  }

  /** The nodes of the fields that are copied. */
  ghost function KeptSize(fields: seq<Field>, skipRef: bool): nat {
    if fields == [] then 0
    else (if skipRef && fields[0].key == "$ref" then 0 else Size(fields[0].value)) + KeptSize(fields[1..], skipRef)
  }

  lemma {:induction false} KeptAll(fields: seq<Field>)
    ensures KeptSize(fields, false) == SizeFields(fields)
    ensures KeptSize(fields, true) <= SizeFields(fields)
    ensures Has(fields, "$ref") ==> KeptSize(fields, true) + 1 <= SizeFields(fields)
  {
    if fields != [] {
      KeptAll(fields[1..]);
      if fields[0].key != "$ref" && Has(fields, "$ref") {
        var i :| 0 <= i < |fields| && fields[i].key == "$ref";
        assert fields[1..][i - 1] == fields[i];
      }
    }
  }

  lemma RefSize(fields: seq<Field>)
    requires RefOf(fields).Some?
    ensures KeptSize(fields, true) + 1 <= SizeFields(fields)
  {
    KeptAll(fields);
  }

  /** Whatever the schema and its definitions, cyclic or not, the inlined schema has at most 3/2 times the nodes
      of the schema and the budget together. */
  lemma InlinedIsBounded(schema: Json, defs: Defs)
    ensures 2 * Size(Inline(schema, defs, [], NODE_BUDGET).0) <= 3 * (Size(schema) + NODE_BUDGET)
  {
    InlineSize(schema, defs, [], NODE_BUDGET);
  }

  // ---------------------------------------------------------------------------
  // No reference is left
  // ---------------------------------------------------------------------------

  /** No object anywhere in `j` has a `$ref` that is a string. */
  ghost predicate NoRefs(j: Json) {
    match j
    case Arr(items) => NoRefsItems(items)
    case Obj(fields) => NoRefsFields(fields)
    case _ => true
  }

  ghost predicate NoRefsItems(items: seq<Json>) {
    items == [] || (NoRefs(items[0]) && NoRefsItems(items[1..]))
  }

  ghost predicate NoRefsFields(fields: seq<Field>) {
    fields == [] || (!IsRef(fields[0]) && NoRefs(fields[0].value) && NoRefsFields(fields[1..]))
  }

  /** No definition that a reference can name is itself a string. */
  ghost predicate NoStringDefs(defs: Defs) {
    forall name :: name in defs && '/' !in name ==> !defs[name].Str?
  }

  lemma {:induction false} PutNoRefs(fields: seq<Field>, f: Field)
    requires NoRefsFields(fields) && !IsRef(f) && NoRefs(f.value)
    ensures NoRefsFields(Put(fields, f))
  {
    var put := Put(fields, f);
    if fields == [] {
      assert put[1..] == [];
    } else if fields[0].key == f.key {
      assert put[1..] == fields[1..];
    } else {
      PutNoRefs(fields[1..], f);
      assert put[1..] == Put(fields[1..], f);
    }
  }

  lemma {:induction false} OverrideNoRefs(base: seq<Field>, over: seq<Field>)
    requires NoRefsFields(base) && NoRefsFields(over)
    ensures NoRefsFields(Override(base, over))
    decreases |over|
  {
    if over != [] {
      PutNoRefs(base, over[0]);
      OverrideNoRefs(Put(base, over[0]), over[1..]);
    }
  }

  lemma LooseNoRefs(why: string)
    ensures NoRefs(Loose(why))
  {
    var fields := Loose(why).fields;
    assert NoRefs(fields[0].value) && NoRefs(fields[1].value);
    assert NoRefsFields([]);
    assert fields[1..] == [Field("description", Str("(" + why + "; any shape accepted)"))];
    assert fields[1..][1..] == [];
  }

  lemma {:induction false} InlineNoRefs(node: Json, defs: Defs, seen: seq<string>, budget: int)
    requires |seen| <= REF_DEPTH && NoStringDefs(defs)
    ensures var out := Inline(node, defs, seen, budget).0; NoRefs(out) && (out.Str? ==> node.Str?)
    decreases REF_DEPTH - |seen|, node, 1
  {
    match node
    case Arr(items) => InlineItemsNoRefs(items, defs, seen, budget);
    case Obj(fields) =>
      if RefOf(fields).None? {
        InlineFieldsNoRefs(fields, false, defs, seen, budget);
      } else {
        var ref := RefOf(fields).value;
        var name := Target(ref);
        if name.None? || name.value !in defs {
          LooseNoRefs("a reference that cannot be followed here: " + Clip80(ref));
        } else if name.value in seen {
          LooseNoRefs("recursive: another " + name.value);
        } else if |seen| >= REF_DEPTH {
          LooseNoRefs("nested too deep: " + name.value);
        } else {
          var paid := budget - Size(defs[name.value]);
          if paid < 0 {
            LooseNoRefs("too large to spell out: " + name.value);
          } else {
            var (target, left) := Inline(defs[name.value], defs, seen + [name.value], paid);
            InlineNoRefs(defs[name.value], defs, seen + [name.value], paid);
            InlineFieldsNoRefs(fields, true, defs, seen, left);
            if target.Obj? { OverrideNoRefs(target.fields, InlineFields(fields, true, defs, seen, left).0); }
          }
        }
      }
    case _ =>
  }

  lemma {:induction false} InlineItemsNoRefs(items: seq<Json>, defs: Defs, seen: seq<string>, budget: int)
    requires |seen| <= REF_DEPTH && NoStringDefs(defs)
    ensures NoRefsItems(InlineItems(items, defs, seen, budget).0)
    decreases REF_DEPTH - |seen|, items, 0
  {
    if items != [] {
      var (first, left) := Inline(items[0], defs, seen, budget);
      InlineNoRefs(items[0], defs, seen, budget);
      InlineItemsNoRefs(items[1..], defs, seen, left);
      var rest := InlineItems(items[1..], defs, seen, left).0;
      assert ([first] + rest)[1..] == rest;
    }
  }

  lemma {:induction false} InlineFieldsNoRefs(fields: seq<Field>, skipRef: bool, defs: Defs, seen: seq<string>,
                                              budget: int)
    requires |seen| <= REF_DEPTH && NoStringDefs(defs)
    requires !skipRef ==> forall i :: 0 <= i < |fields| ==> !IsRef(fields[i])
    ensures NoRefsFields(InlineFields(fields, skipRef, defs, seen, budget).0)
    decreases REF_DEPTH - |seen|, fields, 0
  {
    if fields != [] {
      assert !skipRef ==> !IsRef(fields[0]);
      if skipRef && fields[0].key == "$ref" {
        InlineFieldsNoRefs(fields[1..], skipRef, defs, seen, budget);
      } else {
        var (first, left) := Inline(fields[0].value, defs, seen, budget);
        InlineNoRefs(fields[0].value, defs, seen, budget);
        InlineFieldsNoRefs(fields[1..], skipRef, defs, seen, left);
        var rest := InlineFields(fields[1..], skipRef, defs, seen, left).0;
        assert ([Field(fields[0].key, first)] + rest)[1..] == rest;
      }
    }
  }

  ghost predicate AlwaysNoRefs(defs: Defs) {
    forall schema: Json :: NoRefs(Inline(schema, defs, [], NODE_BUDGET).0)
  }

  /** Inlining leaves no string `$ref` anywhere, for every schema, exactly when no definition a reference can name
      is itself a string: such a definition could be copied in as the value of a property called `$ref`. */
  lemma NoRefsIff(defs: Defs)
    ensures AlwaysNoRefs(defs) <==> NoStringDefs(defs)
  {
    if NoStringDefs(defs) {
      forall schema: Json ensures NoRefs(Inline(schema, defs, [], NODE_BUDGET).0) {
        InlineNoRefs(schema, defs, [], NODE_BUDGET);
      }
    } else {
      var name :| name in defs && '/' !in name && defs[name].Str?;
      var ref := DEFS_PREFIX + "/" + name;
      TargetOfDefs(name);
      var inner := [Field("$ref", Str(ref))];
      var outer := [Field("$ref", Obj(inner))];
      assert inner[1..] == [] && outer[1..] == [];
      assert Inline(defs[name], defs, [] + [name], NODE_BUDGET - 1) == (defs[name], NODE_BUDGET - 1);
      assert Inline(Obj(inner), defs, [], NODE_BUDGET).0 == defs[name];
      var out := InlineFields(outer, false, defs, [], NODE_BUDGET).0;
      assert out[0] == Field("$ref", defs[name]);
      assert Inline(Obj(outer), defs, [], NODE_BUDGET).0 == Obj(out);
      assert !NoRefs(Obj(out));
    }
  }
}
