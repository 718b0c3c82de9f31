/**
 * Runtime values as Go's reflection sees them, replaced by an explicit
 * tagged union: the kinds the comparison engine and the query injection
 * inspect get their own constructor, a value of a declared (named) type
 * wraps the value of its underlying type, every other kind is opaque.
 */
module GoValues {
  import opened ByteStrings
  import Decimal

  /** The `reflect.Kind`s the model distinguishes. */
  datatype Kind = Bool | Int | Int32 | Int64 | Float64 | String | Slice | Map | Struct | Ptr | Interface

  /** A kind without its own `GoValue` constructor. */
  type OtherKind = k: Kind | !(k.String? || k.Int? || k.Int32? || k.Int64? || k.Struct?) witness Bool

  type int32 = x: int | Decimal.MinInt32 <= x <= Decimal.MaxInt32
  type int64 = x: int | Decimal.MinInt64 <= x <= Decimal.MaxInt64

  /**
   * A dynamically typed Go value (`interface{}`). `IntVal` is Go's `int`
   * (64 bits). A struct carries its fields in declaration order. `NamedVal`
   * is a value of a declared type such as `type PriorityType int32`: its
   * kind is that of the underlying value, but its type is not.
   */
  datatype GoValue =
    | StrVal(s: Bytes)
    | IntVal(i: int64)
    | Int32Val(n: int32)
    | Int64Val(i: int64)
    | StructVal(typeName: Bytes, fields: seq<Field>)
    | OtherVal(kind: OtherKind, typeName: Bytes)
    | NamedVal(typeName: Bytes, underlying: GoValue)

  /** One struct field: its Go name, its `query_name` tag value ("" when absent) and its value. */
  datatype Field = Field(name: Bytes, tag: Bytes, value: GoValue)

  /** The value with every declared type stripped off. */
  function Base(v: GoValue): (b: GoValue)
    ensures !b.NamedVal?
  {
    if v.NamedVal? then Base(v.underlying) else v
  }

  /** `reflect.TypeOf(v).Kind()`: a declared type has the kind of its underlying type. */
  function KindOf(v: GoValue): (k: Kind)
    ensures k.String? <==> Base(v).StrVal?
    ensures k.Int32? <==> Base(v).Int32Val?
    ensures k.Struct? <==> Base(v).StructVal?
    ensures !v.NamedVal? ==> (k.String? <==> v.StrVal?) && (k.Int32? <==> v.Int32Val?) && (k.Struct? <==> v.StructVal?)
  {
    match v
    case StrVal(_) => String
    case IntVal(_) => Int
    case Int32Val(_) => Int32
    case Int64Val(_) => Int64
    case StructVal(_, _) => Struct
    case OtherVal(k, _) => k
    case NamedVal(_, u) => KindOf(u)
  }
}
