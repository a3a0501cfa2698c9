/** Values as Python holds them once they are read from YAML or JSON, and the equality it
    compares them by: numbers are compared across their types, so `1`, `1.0` and `True` are
    equal, and so are `0.0` and `-0.0`. */
module PythonValues {

  /** A float is the number it stands for, but for the zero that carries a sign. */
  datatype Value =
    | Null
    | Boolean(b: bool)
    | Integer(n: int)
    | Float(x: real)
    | NegativeZero
    | Text(text: string)
    | List(items: seq<Value>)
    | Dict(entries: map<string, Value>)

  predicate IsNumber(v: Value) {
    v.Boolean? || v.Integer? || v.Float? || v.NegativeZero?
  }

  function NumberOf(v: Value): real
    requires IsNumber(v)
  {
    match v
    case Boolean(b) => if b then 1.0 else 0.0
    case Integer(n) => n as real
    case Float(x) => x
    case NegativeZero => 0.0
  }

  /** `a == b` */
  predicate Same(a: Value, b: Value)
    decreases a
  {
    if IsNumber(a) && IsNumber(b) then NumberOf(a) == NumberOf(b)
    else if a.List? && b.List? then
      |a.items| == |b.items| && forall i :: 0 <= i < |a.items| ==> Same(a.items[i], b.items[i])
    else if a.Dict? && b.Dict? then
      a.entries.Keys == b.entries.Keys && forall k :: k in a.entries ==> Same(a.entries[k], b.entries[k])
    else a == b
  }

  /** Wherever both have a number, it has the same type, and a zero the same sign. */
  predicate SameTypes(a: Value, b: Value)
    decreases a
  {
    match a
    case Boolean(_) => IsNumber(b) ==> b.Boolean?
    case Integer(_) => IsNumber(b) ==> b.Integer?
    case Float(_) => IsNumber(b) ==> b.Float?
    case NegativeZero => IsNumber(b) ==> b.NegativeZero?
    case List(items) =>
      b.List? ==> forall i :: 0 <= i < |items| && i < |b.items| ==> SameTypes(items[i], b.items[i])
    case Dict(entries) =>
      b.Dict? ==> forall k :: k in entries && k in b.entries ==> SameTypes(entries[k], b.entries[k])
    case _ => true
  }

  lemma {:induction false} SameIsReflexive(a: Value)
    ensures Same(a, a)
    decreases a
  {
    match a
    case List(items) =>
      forall i | 0 <= i < |items| ensures Same(items[i], items[i]) {
        SameIsReflexive(items[i]);
      }
    case Dict(entries) =>
      forall k | k in entries ensures Same(entries[k], entries[k]) {
        SameIsReflexive(entries[k]);
      }
    case _ =>
  }

  lemma {:induction false} SameIsSymmetric(a: Value, b: Value)
    requires Same(a, b)
    ensures Same(b, a)
    decreases a
  {
    match a
    case List(items) =>
      forall i | 0 <= i < |items| ensures Same(b.items[i], items[i]) {
        SameIsSymmetric(items[i], b.items[i]);
      }
    case Dict(entries) =>
      forall k | k in entries ensures Same(b.entries[k], entries[k]) {
        SameIsSymmetric(entries[k], b.entries[k]);
      }
    case _ =>
  }

  lemma {:induction false} SameIsTransitive(a: Value, b: Value, c: Value)
    requires Same(a, b) && Same(b, c)
    ensures Same(a, c)
    decreases a
  {
    match a
    case List(items) =>
      forall i | 0 <= i < |items| ensures Same(items[i], c.items[i]) {
        SameIsTransitive(items[i], b.items[i], c.items[i]);
      }
    case Dict(entries) =>
      forall k | k in entries ensures Same(entries[k], c.entries[k]) {
        SameIsTransitive(entries[k], b.entries[k], c.entries[k]);
      }
    case _ =>
  }

  /** Equal values are the same value exactly when their numbers have the same types. */
  lemma {:induction false} EqualIsIdentical(a: Value, b: Value)
    requires Same(a, b)
    ensures SameTypes(a, b) <==> a == b
    decreases a
  {
    match a
    case List(items) =>
      forall i | 0 <= i < |items| ensures SameTypes(items[i], b.items[i]) <==> items[i] == b.items[i] {
        EqualIsIdentical(items[i], b.items[i]);
      }
    case Dict(entries) =>
      forall k | k in entries ensures SameTypes(entries[k], b.entries[k]) <==> entries[k] == b.entries[k] {
        EqualIsIdentical(entries[k], b.entries[k]);
      }
      assert (forall k :: k in entries ==> entries[k] == b.entries[k]) ==> entries == b.entries;
    case _ =>
  }
}
