/** The values a preference entry can hold, and the Java cast that a typed accessor applies to them. */
module PrefValues {

  /** Java `int`. */
  newtype Int32 = x: int | -0x8000_0000 <= x < 0x8000_0000

  /** Java `long`. */
  newtype Int64 = x: int | -0x8000_0000_0000_0000 <= x < 0x8000_0000_0000_0000

  /** Java `float`, carried as its IEEE-754 bit pattern; no arithmetic is done on it. */
  datatype Float32 = Float32(bits: bv32)

  /** The six kinds of value a preference entry can hold. */
  datatype Kind = BoolKind | IntKind | LongKind | FloatKind | StringKind | StringSetKind

  /** A stored or cached preference value, tagged with its kind. */
  datatype Value =
    | BoolValue(b: bool)
    | IntValue(i: Int32)
    | LongValue(l: Int64)
    | FloatValue(f: Float32)
    | StringValue(s: string)
    | StringSetValue(ss: set<string>)

  function KindOf(v: Value): Kind {
    match v
    case BoolValue(_) => BoolKind
    case IntValue(_) => IntKind
    case LongValue(_) => LongKind
    case FloatValue(_) => FloatKind
    case StringValue(_) => StringKind
    case StringSetValue(_) => StringSetKind
  }

  /** The unchecked cast failure a typed accessor raises on a value of another kind. */
  datatype ReadError = ClassCastException(key: string, requested: Kind, found: Kind)

  datatype Result<T> = Ok(value: T) | Failure(error: ReadError)

  /**
   * The cast a typed accessor applies to the value `v` it found under `key`:
   * it yields `v` itself when `v` is of the requested kind and fails otherwise.
   */
  function Cast(key: string, v: Value, requested: Kind): Result<Value> {
    if KindOf(v) == requested then Ok(v) else Failure(ClassCastException(key, requested, KindOf(v)))
  }
}
