/** JSON values as the registry stores them, and the equality Python uses on them.
    Floats are exact reals: rounding plays no part in any claim. */
module JsonValue {
  import opened Basics

  datatype Value =
    | Null
    | Bool(b: bool)
    | Int(i: int)
    | Float(r: real)
    | Str(s: string)
    | Arr(items: seq<Value>)
    | Obj(fields: map<string, Value>)

  /** The number a value compares as: Python's booleans are the integers 0 and 1. */
  function Numeric(v: Value): Option<real> {
    match v
    case Bool(b) => Some(if b then 1.0 else 0.0)
    case Int(i) => Some(i as real)
    case Float(r) => Some(r)
    case _ => None
  }

  /** Python's `==` on decoded JSON. */
  predicate PyEq(v: Value, w: Value) {
    if Numeric(v).Some? || Numeric(w).Some? then Numeric(v) == Numeric(w)
    else
      match v
      case Arr(items) =>
        w.Arr? && |items| == |w.items| && forall k | 0 <= k < |items| :: PyEq(items[k], w.items[k])
      case Obj(fields) =>
        w.Obj? && fields.Keys == w.fields.Keys && forall k | k in fields :: PyEq(fields[k], w.fields[k])
      case _ => v == w
  }

  lemma {:induction false} PyEqReflexive(v: Value)
    ensures PyEq(v, v)
  {
    match v
    case Arr(items) => forall k | 0 <= k < |items| { PyEqReflexive(items[k]); }
    case Obj(fields) => forall k | k in fields { PyEqReflexive(fields[k]); }
    case _ =>
  }

  /** Python equality is coarser than JSON equality: `1 == true`. */
  lemma PyEqMergesNumbersAndBooleans()
    ensures PyEq(Int(1), Bool(true)) && Int(1) != Bool(true)
    ensures PyEq(Int(1), Float(1.0)) && Int(1) != Float(1.0)
  {
  }
}
