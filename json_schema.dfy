/**
 * The JSON Schema (draft-07) values the analyzer produces. Only the values
 * are modelled; their JSON text is the business of a serializer.
 */
module JsonSchema {
  import opened Wrappers

  /** The primitive JSON types the analyzer can emit. */
  datatype Type = Object | Boolean | Integer | Number | Array | String

  /** The `format` tags for numbers. */
  datatype TypeFormat =
    | Int | Int8 | Int16 | Int32 | Int64 | Int128
    | Uint | Uint8 | Uint16 | Uint32 | Uint64 | Uint128
    | Float | Double
  {
    /** What the tag says about signedness: a signed integer format. */
    predicate IsSignedInteger() {
      Int? || Int8? || Int16? || Int32? || Int64? || Int128?
    }

    /** What the tag says about signedness: an unsigned integer format. */
    predicate IsUnsignedInteger() {
      Uint? || Uint8? || Uint16? || Uint32? || Uint64? || Uint128?
    }

    /** The bit width an integer tag names; `None` for the generic `int`
        and `uint` tags and for the float tags. */
    function IntegerWidth(): Option<nat> {
      match this
      case Int8 | Uint8 => Some(8)
      case Int16 | Uint16 => Some(16)
      case Int32 | Uint32 => Some(32)
      case Int64 | Uint64 => Some(64)
      case Int128 | Uint128 => Some(128)
      case _ => None
    }

    /** The (sign, exponent, mantissa) bit layout a float tag names: IEEE 754
        binary32 for `float` and binary64 for `double`. */
    function FloatLayout(): Option<(nat, nat, nat)> {
      match this
      case Float => Some((1, 8, 23))
      case Double => Some((1, 11, 52))
      case _ => None
    }
  }

  /** A signed 128-bit integer, the type of `minimum` and `maximum`. */
  newtype Int128 = x: int | -0x8000_0000_0000_0000_0000_0000_0000_0000 <= x < 0x8000_0000_0000_0000_0000_0000_0000_0000

  /** The `properties` of a node: absent, or a map from field name to node.
      (A datatype of its own rather than an `Option`, so that recursion
      through the nodes it holds is seen to terminate.) */
  datatype OptionalProperties = Absent | Present(entries: map<string, Property>)

  /**
   * A schema node: a typed node, a `$ref` pointer, or an `anyOf` over
   * primitive types.
   */
  datatype Property =
    | TypeNode(
        ty: Type,
        format: Option<TypeFormat>,
        required: Option<seq<string>>,
        properties: OptionalProperties,
        minimum: Option<Int128>,
        maximum: Option<Int128>)
    | Ref(pointer: string)
    | AnyOf(types: seq<Type>)

  /** Shared named sub-schemas, keyed by type name. */
  type Definitions = map<string, Property>

  /** The schema document: version marker, title, the root node and the
      shared definitions. */
  datatype Schema = Schema(
    schema: string,
    title: string,
    rootProperty: Property,
    definitions: Definitions)

  /** The draft-07 meta-schema identifier. */
  const Draft07: string := "http://json-schema.org/draft-07/schema#"

  /** The JSON pointer prefix of an entry under `definitions`. */
  const DefinitionsPrefix: string := "#/definitions/"

  /** A node with a type and an optional format, and nothing else. */
  function BareNode(ty: Type, format: Option<TypeFormat>): Property {
    TypeNode(ty, format, None, Absent, None, None)
  }

  /** The definition name a pointer designates, if it has the
      `#/definitions/` form. */
  function PointerTarget(ptr: string): Option<string> {
    if |ptr| >= |DefinitionsPrefix| && ptr[..|DefinitionsPrefix|] == DefinitionsPrefix
    then Some(ptr[|DefinitionsPrefix|..])
    else None
  }

  /** The `$ref` pointer to the definition called `name`; it designates
      `name` and no other definition. */
  function DefinitionPointer(name: string): (ptr: string)
    ensures PointerTarget(ptr) == Some(name)
  {
    var ptr := DefinitionsPrefix + name;
    assert ptr[..|DefinitionsPrefix|] == DefinitionsPrefix && ptr[|DefinitionsPrefix|..] == name;
    ptr
  }
}
