/**
 * The type descriptions ("shapes") that the analyzer consumes. They come from
 * the facet reflection library; this module keeps only what the analyzer
 * reads of them. Every shape carries its type name, which stands for the
 * shape's type-name function rendered with default options.
 */
module Shapes {

  /** Sign of an integer scalar. */
  datatype Signedness = Signed | Unsigned

  /** The kinds of struct the reflection library distinguishes; `OtherKind`
      stands for any kind added after the analyzer was written. */
  datatype StructKind = PlainStruct | TupleStruct | Tuple | OtherKind

  /** Scalar affinities the analyzer does not support. `UnknownAffinity`
      stands for any affinity added after the analyzer was written. */
  datatype ScalarAffinity =
    | EmptyAffinity
    | SocketAddrAffinity
    | IpAddrAffinity
    | OpaqueAffinity
    | OtherAffinity
    | UnknownAffinity

  /** A named field of a struct. */
  datatype Field = Field(name: string, shape: Shape)

  /**
   * A type description. The first seven variants are scalars; `OtherNumber`
   * is a number whose bit layout is neither integer, float nor fixed-point,
   * and `Other` is any definition that is not a scalar, struct, map, list or
   * enum (an option, for one).
   */
  datatype Shape =
    | Integer(name: string, bits: nat, sign: Signedness)
    | Float(name: string, signBits: nat, exponentBits: nat, mantissaBits: nat)
    | Fixed(name: string, signBits: nat, integerBits: nat, fractionBits: nat)
    | OtherNumber(name: string)
    | Str(name: string)
    | Bool(name: string)
    | OtherScalar(name: string, affinity: ScalarAffinity)
    | Struct(name: string, kind: StructKind, fields: seq<Field>)
    | Map(name: string)
    | List(name: string)
    | Enum(name: string)
    | Other(name: string)
  {
    /** True of the shapes whose definition is a scalar. */
    predicate IsScalar() {
      Integer? || Float? || Fixed? || OtherNumber? || Str? || Bool? || OtherScalar?
    }
  }

  /** The canonical display name of a shape's type. */
  function TypeName(s: Shape): string {
    s.name
  }
}
