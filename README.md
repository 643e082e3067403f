# facet-openapi shape analyzer, modelled in Dafny

facet-openapi turns the reflected *shape* of a Rust type (as the `facet`
crate describes it) into a JSON Schema (draft-07) document. The core is
`analyze_shape`. It maps one shape to a schema node and also collects the
definitions that the node's `$ref`s point to:

- integers and floats become `integer`/`number` nodes with a width format;
- strings and booleans become bare `string`/`boolean` nodes;
- maps become bare `object` nodes and lists bare `array` nodes;
- a plain struct becomes an `object` node with a `required` list and a
  `properties` map. A field whose type is itself a struct is replaced by a
  `$ref` to `#/definitions/<TypeName>`, and that struct's node is added to
  the definitions, together with everything the struct's own analysis
  collected.

The function `schema` wraps the root node with the draft-07 URI and the root
type's name as title. Every shape the code does not handle (`todo!()` and
`panic!` arms) is an error here: `Err` of an `Unsupported` value that names
the shape and the case.

Modules:

- `Wrappers`: `Option` and `Result`.
- `Shapes`: the input, a finite `Shape` datatype with each type's name and
  its `Def` (scalar affinity, struct kind and fields, map, list, enum, other).
- `JsonSchema`: the output types `Schema`, `Type`, `TypeFormat`, `Property`
  and `Definitions`, and the `#/definitions/` pointer.
- `Analyzer`:
  - the specification function `Analyze`, which models `analyze_shape` (src/lib.rs:23-159), and the fold `AnalyzeFields`/`AddField` over a struct's fields;
  - `IsStruct`, which models `is_struct` (src/lib.rs:161-163): true of every struct shape, whatever its kind;
  - the imperative `AnalyzeShape`, which threads a mutable definitions map and a properties map through a loop over the fields as the source does, and is proved equal to `Analyze`;
  - `BuildSchema`, which models `schema`.
- `AnalyzerProofs`: the properties of the analysis, namely:
  - the format tables;
  - the leaf cases;
  - the `required` list in field order;
  - `$ref` versus inlined properties;
  - last-writer-wins merging of definitions;
  - which names end up defined;
  - closedness of every `$ref`;
  - exactly when the analysis fails.
- `Scenarios`: the three unit tests of the source (simple, nested and
  double-nested structs), stated for any choice of struct and field names.

## Model

| member | source | states |
|---|---|---|
| Analyzer.IntegerFormat | src/lib.rs:28-49 | the format of an integer node is signed exactly when the shape is signed and unsigned exactly when it is unsigned, and it carries the width precisely when the width is 8, 16, 32, 64 or 128 (otherwise the width-less `int`/`uint`) |
| Analyzer.FloatFormat | src/lib.rs:50-65 | a float format, when there is one, has exactly the shape's sign/exponent/mantissa layout; when there is none, no format has that layout |
| AnalyzerProofs.FloatFormatExactly | src/lib.rs:56-60 | `float` exactly for the layout (1, 8, 23), `double` exactly for (1, 11, 52), no format (the panic) for every other layout |
| AnalyzerProofs.LeafShapes | src/lib.rs:26-95 | per kind of non-struct shape: integers give an `integer` node with the table's format, floats a `number` node or the layout error, strings `string`, booleans `boolean`, maps a bare `object`, lists `array`, all with no definitions; fixed-point, other number kinds, other scalar affinities, enums and unknown defs fail |
| AnalyzerProofs.RequiredFieldsInOrder | src/lib.rs:102-110 | the `required` list is the names of exactly the fields whose type is not named `Option`, taken at strictly increasing field positions, so in field order |
| AnalyzerProofs.StructShape | src/lib.rs:97-134 | a struct analyses successfully only when it is a plain struct; its node is an `object` with no format, `required` as above, and properties keyed by exactly the field names, each name carrying the node of its last field of that name |
| AnalyzerProofs.FieldsProperties | src/lib.rs:111-130 | the fold over the fields yields properties keyed by exactly the field names; a name's last field gives a `$ref` to its type name when the field is a struct and its own node otherwise |
| AnalyzerProofs.StructFieldOfAnyKind | src/lib.rs:161-163 | the struct test (used at line 116) is true of every struct shape, whatever its kind; so a tuple-struct, tuple or other-kind field still takes the `$ref` branch and fails with its kind's error rather than being inlined; a successful struct field is a `$ref` to its type name, which is then defined, and any other field carries its own node |
| AnalyzerProofs.DefinitionsMerge | src/lib.rs:120-125 | the merged definitions hold a name exactly when some field contributes it, and its value is the one from the last field that contributes it (last writer wins) |
| AnalyzerProofs.DefinitionKeys | src/lib.rs:116-125 | the definitions of an analysis name exactly the struct types reachable through struct fields, at any depth (the root struct itself is not among them unless it is reachable) |
| AnalyzerProofs.AnalysisClosed | src/lib.rs:116-122 | every successful analysis gives a type node (never `$ref` or `anyOf`, never bounds); a struct's node is an object node; every `$ref` in the node and in every definition designates a name defined in the same definitions map |
| AnalyzerProofs.FieldsClosed | src/lib.rs:111-130 | every property produced by the fold is emitted without bounds or `anyOf` and its `$ref`s resolve in the fold's definitions, which are themselves closed |
| AnalyzerProofs.AnalyzeFieldsOk | src/lib.rs:111-130 | the fold over the fields succeeds exactly when every field's analysis succeeds |
| AnalyzerProofs.FirstFailure | src/lib.rs:111-130 | a failing fold fails with the error of a field whose analysis fails while every earlier field's analysis succeeds (the first failure) |
| AnalyzerProofs.StructFailure | src/lib.rs:97-134 | a plain struct fails exactly with its first failing field's error |
| AnalyzerProofs.AnalyzeSucceedsIff | src/lib.rs:23-159 | the analysis succeeds exactly for supported shapes: integers, the two float layouts, strings, booleans, maps, lists, and plain structs all of whose fields are supported; tuple structs, tuples, other struct kinds, enums, fixed-point and other scalars fail |
| Analyzer.FailurePersists | src/lib.rs:111-130 | once the fold over a prefix of the fields fails, the fold over all the fields fails with the same error |
| Analyzer.AnalyzeShape | src/lib.rs:23-159 | the imperative analysis, with its in-place updates of the definitions and properties maps in field order, returns exactly what the specification function `Analyze` returns, error included |
| Analyzer.BuildSchema | src/lib.rs:3-11 | the schema exists exactly when the root analyses; it carries the draft-07 URI, the root type's name as title, and the root's node and definitions; otherwise it fails with the root's error |
| JsonSchema.DefinitionPointer | src/lib.rs:117-118 | the pointer `#/definitions/<name>` designates `name` and no other definition |
| Scenarios.SimpleStructSchema | src/lib.rs:235-249 | a struct of `String`, `bool`, `i8` and `usize` fields gives an object with all four fields required, their `string`, `boolean`, `int8` and `uint64` nodes inlined, and no definitions |
| Scenarios.NestedStructSchema | src/lib.rs:251-267 | an `i32` field and a field of a one-`i32` struct give an `int32` property and a `$ref` to the inner struct, whose object node is the one definition |
| Scenarios.DoubleNestedStructSchema | src/lib.rs:269-290 | with two levels of nesting the root refers only to the middle struct; both the middle struct and the innermost struct it refers to are defined at the root |
| Scenarios.FourInlineFields | src/lib.rs:102-130 | four non-struct, non-optional fields without definitions fold to their four nodes, all four names required in order |
| Scenarios.IntThenStructField | src/lib.rs:115-127 | an `i32` field followed by a struct field: the second property is a `$ref`, and the definitions are the inner struct's node followed by its own definitions |

## Left out

- JSON text: serde serialisation is not modelled. This covers the untagged `Property`, lower-case names, the flattened root property, and leaving out empty definitions and absent fields. The model stops at the `Schema` value.
- `get_type_name` (src/lib.rs:13-21) goes through facet's type-name vtable. It is replaced by the name each `Shape` carries, and `TypeName` returns that name.
- The facet library is not part of this model. A shape is a finite datatype holding only what the analyzer inspects. Map and list shapes do not carry their element shapes, because the analyzer never looks at them. Recursive Rust types cannot be written as a finite shape, so the model cannot express analysing a cyclic type.
- Option handling: the analyzer has no `Option` arm. Its only awareness of `Option` is the type-name test for `required` (src/lib.rs:107), and that is what is modelled. No nullable widening, no `null` type and no `anyOf` with `null` is produced. An `Option` field's own shape goes to whichever arm its def selects, usually the final panic arm, so it fails.
- `HashMap` iteration order is not modelled. Properties and definitions are maps, and only the order of the updates, which decides which value wins, is modelled.
- The JSON fixtures under `test_data/` are not part of this model. The scenarios state the expected schemas from the structure the tests exercise.
- The `todo!()` arm for a signedness that is neither signed nor unsigned (src/lib.rs:43) cannot be reached with a two-valued `Signedness`, so it has no counterpart.
- `usize` is taken to be 64 bits in the scenarios.
- Panics and `todo!()` are errors in a `Result`. The messages the program prints are not modelled.
- `minimum` and `maximum` are `i128` in the source and an `Int128` newtype here. The analyzer never sets them.
