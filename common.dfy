/** The type helpers of common.py over a small universe of Python values. */
module Common {
  import opened Wrappers

  /** What `type(v)` reports; `bool` is its own type even though it subclasses `int`. */
  datatype PyType = IntType | BoolType | StrType | ListType | NoneType | TypeType | OtherType

  /** The Python values the helpers are given; `Type(t)` is a type object such as `int`. */
  datatype Value =
    | Int(i: int)
    | Bool(b: bool)
    | Str(s: string)
    | List(items: seq<Value>)
    | NoneValue
    | Type(t: PyType)
    | Other

  function TypeOf(v: Value): PyType {
    match v
    case Int(_) => IntType
    case Bool(_) => BoolType
    case Str(_) => StrType
    case List(_) => ListType
    case NoneValue => NoneType
    case Type(_) => TypeType
    case Other => OtherType
  }

  /** enlist (common.py:8-9): a list as it is, anything else as a one-element list. */
  function Enlist(v: Value): (r: seq<Value>)
    ensures v.List? ==> r == v.items
    ensures !v.List? ==> r == [v]
  {
    if v.List? then v.items else [v]
  }

  /** Applying enlist to the list enlist made changes nothing. */
  lemma EnlistIdempotent(v: Value)
    ensures Enlist(List(Enlist(v))) == Enlist(v)
  {
  }

  /** A value passes exactly when its own type object is among the allowed ones. */
  predicate Allowed(v: Value, typ: Value) {
    Type(TypeOf(v)) in Enlist(typ)
  }

  /** enforceType (common.py:3-6): raises unless the exact type of `v` is allowed. */
  function EnforceType(v: Value, typ: Value): (r: Result<()>)
    ensures r.Ok? <==> exists k :: 0 <= k < |Enlist(typ)| && Enlist(typ)[k] == Type(TypeOf(v))
    ensures r.Err? ==> r.error == InvalidType
  {
    if Allowed(v, typ) then Ok(()) else Err(InvalidType)
  }

  /** coerceType (common.py:11-13): `v` when its exact type is allowed, `default` otherwise. */
  function CoerceType(v: Value, typ: Value, default: Value): (r: Value)
    ensures r == v || r == default
    ensures EnforceType(v, typ).Ok? ==> r == v
    ensures EnforceType(v, typ).Err? ==> r == default
  {
    if Allowed(v, typ) then v else default
  }

  /** Subtypes are refused: a bool is not accepted where an int is required. */
  lemma BoolIsNotInt(b: bool)
    ensures EnforceType(Bool(b), Type(IntType)).Err?
    ensures EnforceType(Int(if b then 1 else 0), Type(IntType)).Ok?
  {
  }
}
