/** JSON values whose objects keep the order of their keys, as Python's dicts do. */
module Json {
  import opened Wrappers

  datatype Json =
    | Null
    | Bool(b: bool)
    | Num(n: real)
    | Str(s: string)
    | Arr(items: seq<Json>)
    | Obj(fields: seq<Field>)

  datatype Field = Field(key: string, value: Json)

  predicate Scalar(j: Json) {
    !j.Arr? && !j.Obj?
  }

  predicate Has(fields: seq<Field>, key: string) {
    exists i :: 0 <= i < |fields| && fields[i].key == key
  }

  function Get(fields: seq<Field>, key: string): (r: Option<Json>)
    ensures r.Some? <==> Has(fields, key)
    ensures r.Some? ==> exists i :: 0 <= i < |fields| && fields[i] == Field(key, r.value)
  {
    if fields == [] then None
    else if fields[0].key == key then
      assert fields[0] == Field(key, fields[0].value);
      Some(fields[0].value)
    else
      assert forall i :: 0 <= i < |fields| - 1 ==> fields[1..][i] == fields[i + 1];
      assert forall i :: 1 <= i < |fields| ==> fields[i] == fields[1..][i - 1];
      Get(fields[1..], key)
  }

  ghost predicate UniqueKeys(fields: seq<Field>) {
    forall i, j :: 0 <= i < j < |fields| ==> fields[i].key != fields[j].key
  }

  lemma GetAt(fields: seq<Field>, i: nat)
    requires UniqueKeys(fields) && i < |fields|
    ensures Get(fields, fields[i].key) == Some(fields[i].value)
  {
    assert Has(fields, fields[i].key);
  }

  lemma GotAt(fields: seq<Field>, key: string) returns (i: nat)
    requires Has(fields, key)
    ensures i < |fields| && fields[i] == Field(key, Get(fields, key).value)
  {
    i :| 0 <= i < |fields| && fields[i] == Field(key, Get(fields, key).value);
  }

  /** How many nodes a value has. */
  function Size(j: Json): (n: nat)
    ensures n >= 1
  {
    match j
    case Arr(items) => 1 + SizeItems(items)
    case Obj(fields) => 1 + SizeFields(fields)
    case _ => 1
  }

  function SizeItems(items: seq<Json>): nat {
    if items == [] then 0 else Size(items[0]) + SizeItems(items[1..])
  }

  function SizeFields(fields: seq<Field>): nat {
    if fields == [] then 0 else Size(fields[0].value) + SizeFields(fields[1..])
  }

  // ---------------------------------------------------------------------------
  // Equality
  // ---------------------------------------------------------------------------

  /** Equal values, objects whatever the order of their keys. As JSON values (`strict`) a boolean is never equal
      to a number; to Python, True is 1 and False is 0. */
  predicate Eq(a: Json, b: Json, strict: bool) {
    match (a, b)
    case (Null, Null) => true
    case (Bool(x), Bool(y)) => x == y
    case (Num(x), Num(y)) => x == y
    case (Str(x), Str(y)) => x == y
    case (Bool(x), Num(y)) => !strict && y == if x then 1.0 else 0.0
    case (Num(x), Bool(y)) => !strict && x == if y then 1.0 else 0.0
    case (Arr(x), Arr(y)) => |x| == |y| && forall i :: 0 <= i < |x| ==> Eq(x[i], y[i], strict)
    case (Obj(x), Obj(y)) =>
      && (forall i :: 0 <= i < |x| ==> Has(y, x[i].key) && Eq(x[i].value, Get(y, x[i].key).value, strict))
      && (forall j :: 0 <= j < |y| ==> Has(x, y[j].key))
    case _ => false
  }

  lemma {:induction false} EqReflexive(a: Json, strict: bool)
    requires WellKeyed(a)
    ensures Eq(a, a, strict)
  {
    match a
    case Arr(items) =>
      forall i | 0 <= i < |items| ensures Eq(items[i], items[i], strict) { EqReflexive(items[i], strict); }
    case Obj(fields) =>
      forall i | 0 <= i < |fields|
        ensures Has(fields, fields[i].key) && Eq(fields[i].value, Get(fields, fields[i].key).value, strict)
      {
        GetAt(fields, i);
        EqReflexive(fields[i].value, strict);
      }
    case _ =>
  }

  /** Keys are unique everywhere, as in any dict. */
  ghost predicate WellKeyed(j: Json) {
    match j
    case Arr(items) => forall i :: 0 <= i < |items| ==> WellKeyed(items[i])
    case Obj(fields) => UniqueKeys(fields) && forall i :: 0 <= i < |fields| ==> WellKeyed(fields[i].value)
    case _ => true
  }

  lemma {:induction false} EqTransitive(a: Json, b: Json, c: Json, strict: bool)
    requires strict && Eq(a, b, strict) && Eq(b, c, strict)
    ensures Eq(a, c, strict)
  {
    match a
    case Arr(x) =>
      forall i | 0 <= i < |x| ensures Eq(x[i], c.items[i], strict) {
        EqTransitive(x[i], b.items[i], c.items[i], strict);
      }
    case Obj(x) =>
      var y, z := b.fields, c.fields;
      forall i | 0 <= i < |x| ensures Has(z, x[i].key) && Eq(x[i].value, Get(z, x[i].key).value, strict) {
        var j := GotAt(y, x[i].key);
        EqTransitive(x[i].value, y[j].value, Get(z, x[i].key).value, strict);
      }
      forall k | 0 <= k < |z| ensures Has(x, z[k].key) {
        var j := GotAt(y, z[k].key);
        assert Has(x, y[j].key);
      }
    case _ =>
  }

  lemma {:induction false} EqSymmetric(a: Json, b: Json, strict: bool)
    requires WellKeyed(a) && WellKeyed(b) && Eq(a, b, strict)
    ensures Eq(b, a, strict)
  {
    match a
    case Arr(x) =>
      forall i | 0 <= i < |x| ensures Eq(b.items[i], x[i], strict) { EqSymmetric(x[i], b.items[i], strict); }
    case Obj(x) =>
      var y := b.fields;
      forall j | 0 <= j < |y| ensures Has(x, y[j].key) && Eq(y[j].value, Get(x, y[j].key).value, strict) {
        var i :| 0 <= i < |x| && x[i].key == y[j].key;
        GetAt(x, i);
        GetAt(y, j);
        EqSymmetric(x[i].value, y[j].value, strict);
      }
    case _ =>
  }
}
