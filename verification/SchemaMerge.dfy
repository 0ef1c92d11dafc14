/** Top-level combiners merged into one object (arslan/llm/tool_schema.py, `_same_field` and `_merge_top`). */
module SchemaMerge {
  import opened Wrappers
  import opened Json
  import opened SchemaInline
  import opened SchemaMeaning

  // ---------------------------------------------------------------------------
  // One field the branches describe differently
  // ---------------------------------------------------------------------------

  /** Python's `in`: True is found among numbers as 1. */
  predicate In(j: Json, list: seq<Json>) {
    exists i :: 0 <= i < |list| && Eq(j, list[i], false)
  }

  /** The list without what Python finds again. */
  function Deduped(list: seq<Json>): (d: seq<Json>)
    ensures list != [] ==> d != []
  {
    if list == [] then []
    else
      var d := Deduped(list[..|list| - 1]);
      if In(list[|list| - 1], d) then d else d + [list[|list| - 1]]
  }

  /** All it says is which values are allowed. */
  predicate OnlyValues(shape: Json) {
    && shape.Obj?
    && (Has(shape.fields, "const") || Has(shape.fields, "enum"))
    && forall i :: 0 <= i < |shape.fields| ==> shape.fields[i].key in {"const", "enum", "type", "description"}
  }

  function Values(shape: Json): seq<Json> {
    if !shape.Obj? then []
    else match Get(shape.fields, "const")
      case Some(value) => [value]
      case None =>
        match Get(shape.fields, "enum")
        case Some(Arr(items)) => items
        case _ => []
  }

  function AllValues(shapes: seq<Json>): seq<Json> {
    if shapes == [] then [] else AllValues(shapes[..|shapes| - 1]) + Values(shapes[|shapes| - 1])
  }

  function Kind(shape: Json): Option<Json> {
    if !shape.Obj? then None
    else match Get(shape.fields, "type")
      case Some(Null) => None
      case kind => kind
  }

  /** The one kind all shapes name, if there is one. */
  function CommonKind(shapes: seq<Json>): Option<Json> {
    if shapes != [] && Kind(shapes[0]).Some?
       && (forall i :: 0 <= i < |shapes| ==>
             Kind(shapes[i]).Some? && Eq(Kind(shapes[i]).value, Kind(shapes[0]).value, false))
    then Kind(shapes[0]) else None
  }

  function EnumOf(values: seq<Json>, kind: Option<Json>): Json {
    Obj([Field("enum", Arr(values))] + if kind.Some? then [Field("type", kind.value)] else [])
  }

  /** One shape for the field, or None where the original raises: a type that is a list cannot be put in a set. */
  function SameField(shapes: seq<Json>): Option<Json>
    requires shapes != []
  {
    var distinct := Deduped(shapes);
    if |distinct| == 1 then Some(distinct[0])
    else if forall i :: 0 <= i < |distinct| ==> OnlyValues(distinct[i]) then
      if exists i :: 0 <= i < |distinct| && Kind(distinct[i]).Some? && !Scalar(Kind(distinct[i]).value) then None
      else Some(EnumOf(Deduped(AllValues(distinct)), CommonKind(distinct)))
    else Some(Obj([Field("anyOf", Arr(distinct))]))
  }

  /** The loops. */
  method Dedup(list: seq<Json>) returns (distinct: seq<Json>)
    ensures distinct == Deduped(list)
  {
    distinct := [];
    for i := 0 to |list|
      invariant distinct == Deduped(list[..i])
    {
      assert list[..i + 1][..i] == list[..i];
      if !In(list[i], distinct) {
        distinct := distinct + [list[i]];
      }
    }
    assert list[..|list|] == list;
  }

  method AddMissing(values: seq<Json>, more: seq<Json>, ghost before: seq<Json>) returns (longer: seq<Json>)
    requires values == Deduped(before)
    ensures longer == Deduped(before + more)
  {
    longer := values;
    assert before + more[..0] == before;
    for j := 0 to |more|
      invariant longer == Deduped(before + more[..j])
    {
      assert (before + more[..j + 1])[..|before| + j] == before + more[..j];
      if !In(more[j], longer) {
        longer := longer + [more[j]];
      }
    }
    assert more[..|more|] == more;
  }

  method CollectValues(shapes: seq<Json>) returns (values: seq<Json>)
    ensures values == Deduped(AllValues(shapes))
  {
    values := [];
    for i := 0 to |shapes|
      invariant values == Deduped(AllValues(shapes[..i]))
    {
      assert shapes[..i + 1][..i] == shapes[..i];
      values := AddMissing(values, Values(shapes[i]), AllValues(shapes[..i]));
    }
    assert shapes[..|shapes|] == shapes;
  }

  method MergeField(shapes: seq<Json>) returns (merged: Option<Json>)
    requires shapes != []
    ensures merged == SameField(shapes)
  {
    var distinct := Dedup(shapes);
    if |distinct| == 1 {
      return Some(distinct[0]);
    }
    if forall i :: 0 <= i < |distinct| ==> OnlyValues(distinct[i]) {
      var values := CollectValues(distinct);
      if exists i :: 0 <= i < |distinct| && Kind(distinct[i]).Some? && !Scalar(Kind(distinct[i]).value) {
        return None;
      }
      return Some(EnumOf(values, CommonKind(distinct)));
    }
    return Some(Obj([Field("anyOf", Arr(distinct))]));
  }

  /** No two values are the same to Python that differ as JSON: no true beside 1, no false beside 0. */
  ghost predicate NoConfusion(list: seq<Json>) {
    forall i, j :: 0 <= i < |list| && 0 <= j < |list| && Eq(list[i], list[j], false) ==> Eq(list[i], list[j], true)
  }

  ghost predicate AllWellKeyed(list: seq<Json>) {
    forall i :: 0 <= i < |list| ==> WellKeyed(list[i])
  }

  lemma {:induction false} DedupedFrom(list: seq<Json>)
    ensures forall x :: x in Deduped(list) ==> x in list
  {
    if list != [] { DedupedFrom(list[..|list| - 1]); }
  }

  /** Nothing is lost: Python finds every element among those kept. */
  lemma {:induction false} DedupedCovers(list: seq<Json>, i: nat)
    requires i < |list| && AllWellKeyed(list)
    ensures In(list[i], Deduped(list))
  {
    var n := |list| - 1;
    var d := Deduped(list[..n]);
    if i < n {
      DedupedCovers(list[..n], i);
      var j :| 0 <= j < |d| && Eq(list[i], d[j], false);
      assert Deduped(list)[j] == d[j];
    } else if !In(list[n], d) {
      EqReflexive(list[n], false);
      assert Deduped(list)[|d|] == list[n];
    }
  }

  /** Without confusion, what is kept is equal as JSON too. */
  lemma DedupedKeeps(list: seq<Json>, i: nat) returns (j: nat)
    requires i < |list| && AllWellKeyed(list) && NoConfusion(list)
    ensures j < |Deduped(list)| && Eq(list[i], Deduped(list)[j], true) && WellKeyed(Deduped(list)[j])
  {
    DedupedCovers(list, i);
    DedupedFrom(list);
    j :| 0 <= j < |Deduped(list)| && Eq(list[i], Deduped(list)[j], false);
    assert Deduped(list)[j] in list;
  }

  /** What the merge needs of the shapes: no value confused with another, and lists under `enum`. */
  ghost predicate Mergeable(shapes: seq<Json>) {
    && AllWellKeyed(shapes) && NoConfusion(shapes) && NoConfusion(AllValues(Deduped(shapes)))
    && forall i :: 0 <= i < |shapes| ==> ListsValues(shapes[i])
  }

  ghost predicate ListsValues(shape: Json) {
    OnlyValues(shape) && !Has(shape.fields, "const") ==> Get(shape.fields, "enum").value.Arr?
  }

  /** Whatever one of the shapes allows, the merged field allows. */
  lemma SameFieldLoosens(shapes: seq<Json>, i: nat, inst: Json)
    requires i < |shapes| && Mergeable(shapes) && SameField(shapes).Some? && Allows(shapes[i], inst)
    ensures Allows(SameField(shapes).value, inst)
  {
    var j := DedupedKeeps(shapes, i);
    EqAccepts(shapes[i], Deduped(shapes)[j], inst, map[], 0);
    DedupedFrom(shapes);
    assert forall k :: 0 <= k < |Deduped(shapes)| ==> Deduped(shapes)[k] in shapes;
    DistinctLoosens(shapes, Deduped(shapes), j, inst);
  }

  lemma DistinctLoosens(shapes: seq<Json>, distinct: seq<Json>, j: nat, inst: Json)
    requires shapes != [] && distinct == Deduped(shapes) && SameField(shapes).Some?
    requires j < |distinct| && Allows(distinct[j], inst)
    requires AllWellKeyed(distinct) && NoConfusion(AllValues(distinct)) && ListsValues(distinct[j])
    ensures Allows(SameField(shapes).value, inst)
  {
    if |distinct| == 1 {
      assert j == 0;
    } else if forall k :: 0 <= k < |distinct| ==> OnlyValues(distinct[k]) {
      EnumAllows(distinct, j, inst);
    } else {
      AnyAllows(distinct, j, inst);
    }
  }

  lemma AnyAllows(distinct: seq<Json>, j: nat, inst: Json)
    requires j < |distinct| && Allows(distinct[j], inst)
    ensures Allows(Obj([Field("anyOf", Arr(distinct))]), inst)
  {
    CountOne(distinct, j, inst);
    OneField(Field("anyOf", Arr(distinct)), inst);
  }

  lemma {:induction false} CountOne(items: seq<Json>, j: nat, inst: Json)
    requires j < |items| && Allows(items[j], inst)
    ensures Count(items, inst, map[], 0) >= 1
  {
    if j > 0 { CountOne(items[1..], j - 1, inst); }
  }

  lemma {:induction false} AllValuesHas(shapes: seq<Json>, j: nat, value: Json)
    requires j < |shapes| && value in Values(shapes[j])
    ensures value in AllValues(shapes)
  {
    if j < |shapes| - 1 { AllValuesHas(shapes[..|shapes| - 1], j, value); }
  }

  lemma {:induction false} AllValuesWellKeyed(shapes: seq<Json>)
    requires AllWellKeyed(shapes)
    ensures AllWellKeyed(AllValues(shapes))
  {
    if shapes != [] {
      AllValuesWellKeyed(shapes[..|shapes| - 1]);
      ValuesWellKeyed(shapes[|shapes| - 1]);
    }
  }

  lemma ValuesWellKeyed(shape: Json)
    requires WellKeyed(shape)
    ensures AllWellKeyed(Values(shape))
  {
  }

  /** The value a values-only shape allows is one of those it lists. */
  lemma ValueOf(shape: Json, inst: Json) returns (value: Json)
    requires OnlyValues(shape) && Allows(shape, inst) && ListsValues(shape)
    ensures value in Values(shape) && Eq(inst, value, true)
  {
    var fields := shape.fields;
    if Has(fields, "const") {
      var i :| 0 <= i < |fields| && fields[i] == Field("const", Get(fields, "const").value);
      AllowsField(fields, i, inst);
      value := fields[i].value;
    } else {
      var i :| 0 <= i < |fields| && fields[i] == Field("enum", Get(fields, "enum").value);
      AllowsField(fields, i, inst);
      var k :| 0 <= k < |fields[i].value.items| && Eq(inst, fields[i].value.items[k], true);
      value := fields[i].value.items[k];
    }
  }

  lemma EnumAllows(distinct: seq<Json>, j: nat, inst: Json)
    requires j < |distinct| && Allows(distinct[j], inst) && OnlyValues(distinct[j]) && ListsValues(distinct[j])
    requires AllWellKeyed(distinct) && NoConfusion(AllValues(distinct))
    ensures Allows(EnumOf(Deduped(AllValues(distinct)), CommonKind(distinct)), inst)
  {
    var value := ValueOf(distinct[j], inst);
    var k := ValueKept(distinct, j, value, inst);
    var kind := CommonKind(distinct);
    if kind.Some? { KindAllows(distinct[j], kind.value, inst); }
    EnumOfAllows(Deduped(AllValues(distinct)), kind, k, inst);
  }

  /** A value one of the shapes lists is still among the values kept, as JSON sees it. */
  lemma ValueKept(distinct: seq<Json>, j: nat, value: Json, inst: Json) returns (k: nat)
    requires j < |distinct| && OnlyValues(distinct[j]) && value in Values(distinct[j]) && Eq(inst, value, true)
    requires AllWellKeyed(distinct) && NoConfusion(AllValues(distinct))
    ensures k < |Deduped(AllValues(distinct))| && Eq(inst, Deduped(AllValues(distinct))[k], true)
  {
    var all := AllValues(distinct);
    AllValuesHas(distinct, j, value);
    AllValuesWellKeyed(distinct);
    var i :| 0 <= i < |all| && all[i] == value;
    k := DedupedKeeps(all, i);
    EqTransitive(inst, value, Deduped(all)[k], true);
  }

  lemma EnumOfAllows(values: seq<Json>, kind: Option<Json>, k: nat, inst: Json)
    requires k < |values| && Eq(inst, values[k], true)
    requires kind.Some? ==> AcceptsField(Field("type", kind.value), inst, map[], 0)
    ensures Allows(EnumOf(values, kind), inst)
  {
    assert AcceptsField(Field("enum", Arr(values)), inst, map[], 0);
  }

  lemma KindAllows(shape: Json, kind: Json, inst: Json)
    requires shape.Obj? && Allows(shape, inst) && Kind(shape).Some? && Eq(Kind(shape).value, kind, false)
    ensures AcceptsField(Field("type", kind), inst, map[], 0)
  {
    var fields := shape.fields;
    var i :| 0 <= i < |fields| && fields[i] == Field("type", Kind(shape).value);
    AllowsField(fields, i, inst);
  }

  lemma AllowsField(fields: seq<Field>, i: nat, inst: Json)
    requires i < |fields| && Allows(Obj(fields), inst)
    ensures AcceptsField(fields[i], inst, map[], 0)
  {
    assert AcceptsFields(fields, inst, map[], 0);
  }

  // ---------------------------------------------------------------------------
  // When constants survive
  // ---------------------------------------------------------------------------

  /** A field the branches pin to one constant each. */
  function Consts(values: seq<Json>): (shapes: seq<Json>)
    ensures |shapes| == |values|
    ensures forall i :: 0 <= i < |shapes| ==> shapes[i] == Obj([Field("const", values[i])])
  {
    seq(|values|, i requires 0 <= i < |values| => Obj([Field("const", values[i])]))
  }

  ghost predicate AllSurvive(values: seq<Json>)
    requires values != []
  {
    && SameField(Consts(values)).Some?
    && forall i :: 0 <= i < |values| ==> Allows(SameField(Consts(values)).value, values[i])
  }

  lemma ConstEq(a: Json, b: Json, strict: bool)
    ensures Eq(Obj([Field("const", a)]), Obj([Field("const", b)]), strict) <==> Eq(a, b, strict)
  {
    var x, y := [Field("const", a)], [Field("const", b)];
    assert x[0].key == "const" && y[0].key == "const";
    assert Has(x, "const") && Has(y, "const");
    assert Get(y, "const") == Some(b);
  }

  /** Deduplication commutes with pinning. */
  lemma {:induction false} DedupedConsts(values: seq<Json>)
    ensures Deduped(Consts(values)) == Consts(Deduped(values))
  {
    if values != [] {
      var n := |values| - 1;
      var d := Deduped(values[..n]);
      assert Consts(values)[..n] == Consts(values[..n]);
      DedupedConsts(values[..n]);
      forall i | 0 <= i < |d| ensures Eq(Consts(values)[n], Consts(d)[i], false) <==> Eq(values[n], d[i], false) {
        ConstEq(values[n], d[i], false);
      }
      assert In(Consts(values)[n], Consts(d)) <==> In(values[n], d);
      assert Consts(d + [values[n]]) == Consts(d) + [Obj([Field("const", values[n])])];
    }
  }

  lemma {:induction false} ValuesOfConsts(values: seq<Json>)
    ensures AllValues(Consts(values)) == values
  {
    if values != [] {
      var n := |values| - 1;
      assert Consts(values)[..n] == Consts(values[..n]);
      ValuesOfConsts(values[..n]);
      var f := [Field("const", values[n])];
      assert Get(f, "const") == Some(values[n]);
      assert values == values[..n] + [values[n]];
    }
  }

  /** Nothing kept is found again among the rest. */
  lemma {:induction false} DedupedTwice(list: seq<Json>)
    requires forall i :: 0 <= i < |list| ==> Scalar(list[i])
    ensures Deduped(Deduped(list)) == Deduped(list)
  {
    if list != [] {
      var n := |list| - 1;
      DedupedTwice(list[..n]);
      var d := Deduped(list[..n]);
      if !In(list[n], d) { assert (d + [list[n]])[..|d|] == d; }
    }
  }

  lemma OneField(f: Field, inst: Json)
    ensures Allows(Obj([f]), inst) <==> AcceptsField(f, inst, map[], 0)
  {
    assert [f][0] == f;
    assert AcceptsFields([f], inst, map[], 0) <==> AcceptsField(f, inst, map[], 0);
  }

  lemma ConstIsOnlyValue(value: Json)
    ensures OnlyValues(Obj([Field("const", value)])) && Kind(Obj([Field("const", value)])) == None
  {
    var f := [Field("const", value)];
    assert f[0].key == "const" && f[1..] == [];
    assert Get(f, "type") == None;
  }

  lemma ConstsMerge(kept: seq<Json>)
    requires kept != []
    ensures |kept| > 1 ==> forall i :: 0 <= i < |kept| ==> OnlyValues(Consts(kept)[i]) && Kind(Consts(kept)[i]) == None
    ensures AllValues(Consts(kept)) == kept && CommonKind(Consts(kept)) == None
  {
    ValuesOfConsts(kept);
    forall i | 0 <= i < |kept| ensures OnlyValues(Consts(kept)[i]) && Kind(Consts(kept)[i]) == None {
      ConstIsOnlyValue(kept[i]);
    }
  }

  lemma MergedConstsAre(values: seq<Json>)
    requires values != [] && forall i :: 0 <= i < |values| ==> Scalar(values[i])
    ensures var kept := Deduped(values);
            SameField(Consts(values))
              == Some(Obj([if |kept| == 1 then Field("const", kept[0]) else Field("enum", Arr(kept))]))
  {
    DedupedConsts(values);
    DedupedTwice(values);
    ConstsMerge(Deduped(values));
    SameFieldIs(Consts(values), Consts(Deduped(values)), Deduped(values));
  }

  lemma SameFieldIs(shapes: seq<Json>, distinct: seq<Json>, kept: seq<Json>)
    requires shapes != [] && distinct == Deduped(shapes) && |distinct| == |kept| && kept != []
    requires distinct[0] == Obj([Field("const", kept[0])])
    requires |kept| > 1 ==> forall i :: 0 <= i < |kept| ==> OnlyValues(distinct[i]) && Kind(distinct[i]) == None
    requires AllValues(distinct) == kept && Deduped(kept) == kept && CommonKind(distinct) == None
    ensures SameField(shapes) == Some(Obj([if |kept| == 1 then Field("const", kept[0]) else Field("enum", Arr(kept))]))
  {
    if |kept| > 1 {
      SeveralKept(shapes, distinct);
      EnumWithoutKind(kept);
    }
  }

  lemma SeveralKept(shapes: seq<Json>, distinct: seq<Json>)
    requires shapes != [] && distinct == Deduped(shapes) && |distinct| > 1
    requires forall i :: 0 <= i < |distinct| ==> OnlyValues(distinct[i]) && Kind(distinct[i]) == None
    ensures SameField(shapes) == Some(EnumOf(Deduped(AllValues(distinct)), CommonKind(distinct)))
  {
  }

  lemma EnumWithoutKind(values: seq<Json>)
    ensures EnumOf(values, None) == Obj([Field("enum", Arr(values))])
  {
    assert [Field("enum", Arr(values))] + [] == [Field("enum", Arr(values))];
  }

  /** What a merged field of constants allows. */
  lemma MergedConsts(values: seq<Json>, inst: Json)
    requires values != [] && forall i :: 0 <= i < |values| ==> Scalar(values[i])
    ensures SameField(Consts(values)).Some?
    ensures Allows(SameField(Consts(values)).value, inst)
            <==> exists k :: 0 <= k < |Deduped(values)| && Eq(inst, Deduped(values)[k], true)
  {
    MergedConstsAre(values);
    var kept := Deduped(values);
    OneField(if |kept| == 1 then Field("const", kept[0]) else Field("enum", Arr(kept)), inst);
  }

  /** Merging constants keeps every one of them exactly when none is equal to another in Python but not as JSON:
      of true and 1, or of false and 0, only the first survives. */
  lemma ConstsSurviveIff(values: seq<Json>)
    requires values != [] && forall i :: 0 <= i < |values| ==> Scalar(values[i])
    ensures AllSurvive(values) <==> NoConfusion(values)
  {
    MergedConsts(values, values[0]);
    if NoConfusion(values) {
      forall i: nat | i < |values| ensures Allows(SameField(Consts(values)).value, values[i]) {
        MergedConsts(values, values[i]);
        var k := DedupedKeeps(values, i);
      }
    }
    if AllSurvive(values) {
      forall i, j | 0 <= i < |values| && 0 <= j < |values| && Eq(values[i], values[j], false)
        ensures Eq(values[i], values[j], true)
      {
        MergedConsts(values, values[i]);
        MergedConsts(values, values[j]);
        SurvivorsDiffer(values, i, j);
      }
    }
  }

  lemma SurvivorsDiffer(values: seq<Json>, i: nat, j: nat)
    requires i < |values| && j < |values| && Eq(values[i], values[j], false)
    requires forall k :: 0 <= k < |values| ==> Scalar(values[k])
    requires exists k :: 0 <= k < |Deduped(values)| && Eq(values[i], Deduped(values)[k], true)
    requires exists k :: 0 <= k < |Deduped(values)| && Eq(values[j], Deduped(values)[k], true)
    ensures Eq(values[i], values[j], true)
  {
    var kept := Deduped(values);
    var k: nat :| k < |kept| && Eq(values[i], kept[k], true);
    var m: nat :| m < |kept| && Eq(values[j], kept[m], true);
    assert kept[k] == values[i] && kept[m] == values[j];
    KeptApart(values, k, m);
  }

  lemma {:induction false} KeptApart(list: seq<Json>, k: nat, m: nat)
    requires k < |Deduped(list)| && m < |Deduped(list)|
    requires Eq(Deduped(list)[k], Deduped(list)[m], false) && Eq(Deduped(list)[m], Deduped(list)[k], false)
    ensures k == m
  {
    var n := |list| - 1;
    var d := Deduped(list[..n]);
    if k < |d| && m < |d| { KeptApart(list[..n], k, m); }
  }
}
