// JSON documents and Python's equality on them.

module JsonValues {
  import opened Options

  datatype Json =
    | Null
    | Bool(b: bool)
    | Int(n: int)
    | Float(r: real)
    | Str(s: string)
    | Arr(items: seq<Json>)
    | Obj(fields: map<string, Json>)

  predicate IsNumeric(a: Json) {
    a.Bool? || a.Int? || a.Float?
  }

  /** bool is a subclass of int: True == 1 == 1.0 */
  function NumericValue(a: Json): real
    requires IsNumeric(a)
  {
    match a
    case Bool(b) => if b then 1.0 else 0.0
    case Int(n) => n as real
    case Float(r) => r
  }

  /** Python's `==` */
  predicate PyEq(a: Json, b: Json) {
    if IsNumeric(a) && IsNumeric(b) then NumericValue(a) == NumericValue(b)
    else if a.Arr? && b.Arr? then |a.items| == |b.items| && forall i :: 0 <= i < |a.items| ==> PyEq(a.items[i], b.items[i])
    else if a.Obj? && b.Obj? then a.fields.Keys == b.fields.Keys && forall k :: k in a.fields ==> PyEq(a.fields[k], b.fields[k])
    else a == b
  }

  /** Truth values count as 0 and 1 and integers equal floats of the same value; other kinds never equal each other. */
  lemma PyEqIs(a: Json, b: Json)
    ensures a.Int? && b.Int? ==> (PyEq(a, b) <==> a.n == b.n)
    ensures a.Int? && b.Float? ==> (PyEq(a, b) <==> a.n as real == b.r)
    ensures a.Float? && b.Float? ==> (PyEq(a, b) <==> a.r == b.r)
    ensures a.Bool? && b.Bool? ==> (PyEq(a, b) <==> a.b == b.b)
    ensures a.Bool? && b.Int? ==> (PyEq(a, b) <==> b.n == if a.b then 1 else 0)
    ensures a.Bool? && b.Float? ==> (PyEq(a, b) <==> b.r == if a.b then 1.0 else 0.0)
    ensures a.Str? || b.Str? || a.Null? || b.Null? ==> (PyEq(a, b) <==> a == b)
    ensures a.Arr? != b.Arr? || a.Obj? != b.Obj? ==> !PyEq(a, b)
  {
  }

  lemma {:induction false} PyEqReflexive(a: Json)
    ensures PyEq(a, a)
  {
    if a.Arr? {
      forall i | 0 <= i < |a.items| ensures PyEq(a.items[i], a.items[i]) { PyEqReflexive(a.items[i]); }
    } else if a.Obj? {
      forall k | k in a.fields ensures PyEq(a.fields[k], a.fields[k]) { PyEqReflexive(a.fields[k]); }
    }
  }

  lemma {:induction false} PyEqSymmetric(a: Json, b: Json)
    ensures PyEq(a, b) <==> PyEq(b, a)
  {
    if a.Arr? && b.Arr? && |a.items| == |b.items| {
      forall i | 0 <= i < |a.items| ensures PyEq(a.items[i], b.items[i]) <==> PyEq(b.items[i], a.items[i]) {
        PyEqSymmetric(a.items[i], b.items[i]);
      }
    } else if a.Obj? && b.Obj? && a.fields.Keys == b.fields.Keys {
      forall k | k in a.fields ensures PyEq(a.fields[k], b.fields[k]) <==> PyEq(b.fields[k], a.fields[k]) {
        PyEqSymmetric(a.fields[k], b.fields[k]);
      }
    }
  }

  // ---- addresses inside a document ----

  datatype Step = Field(key: string) | Item(index: nat)

  function ValueAt(v: Json, loc: seq<Step>): Option<Json> {
    if loc == [] then Some(v)
    else match loc[0]
      case Field(k) => if v.Obj? && k in v.fields then ValueAt(v.fields[k], loc[1..]) else None
      case Item(i) => if v.Arr? && i < |v.items| then ValueAt(v.items[i], loc[1..]) else None
  }
}
