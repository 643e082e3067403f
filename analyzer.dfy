/**
 * The shape-to-schema analyzer: it walks a shape and returns the schema node
 * for its type together with the definitions of every plain struct met in a
 * field position below it. `Analyze` is the specification, written as a
 * fold over the fields; `AnalyzeShape` is the analyzer as the program runs
 * it, updating its local maps field by field, and is proved to compute
 * `Analyze`.
 */
module Analyzer {
  import opened Wrappers
  import opened Shapes
  import opened JsonSchema

  /** Why an analysis was abandoned; each carries the offending type name. */
  datatype Unsupported =
    | UnsupportedFloatLayout(typeName: string, signBits: nat, exponentBits: nat, mantissaBits: nat)
    | UnsupportedFixedPoint(typeName: string)
    | UnsupportedNumberBits(typeName: string)
    | UnsupportedScalar(typeName: string, affinity: ScalarAffinity)
    | UnsupportedStructKind(typeName: string, kind: StructKind)
    | UnsupportedEnum(typeName: string)
    | UnsupportedDef(typeName: string)

  /** The node for a type and the definitions met below it. */
  datatype Analysis = Analysis(node: Property, definitions: Definitions)

  /** What the field loop of a struct has built so far. */
  datatype Accumulated = Accumulated(properties: map<string, Property>, definitions: Definitions)

  /** The integer widths that have a format tag of their own. */
  const StandardWidths: set<nat> := {8, 16, 32, 64, 128}

  /** The format tag of an integer: it names the sign always, and the width
      exactly when the width is a standard one. */
  function IntegerFormat(bits: nat, sign: Signedness): (f: TypeFormat)
    ensures f.IsSignedInteger() <==> sign == Signed
    ensures f.IsUnsignedInteger() <==> sign == Unsigned
    ensures f.IntegerWidth() == if bits in StandardWidths then Some(bits) else None
  {
    match (bits, sign)
    case (8, Signed) => Int8
    case (16, Signed) => Int16
    case (32, Signed) => Int32
    case (64, Signed) => Int64
    case (128, Signed) => Int128
    case (_, Signed) => Int
    case (8, Unsigned) => Uint8
    case (16, Unsigned) => Uint16
    case (32, Unsigned) => Uint32
    case (64, Unsigned) => Uint64
    case (128, Unsigned) => Uint128
    case (_, Unsigned) => Uint
  }

  /** The format tag of a float: the tag whose IEEE 754 layout is the given
      one, and none when no tag has that layout. */
  function FloatFormat(signBits: nat, exponentBits: nat, mantissaBits: nat): (f: Option<TypeFormat>)
    ensures f.Some? ==> f.value.FloatLayout() == Some((signBits, exponentBits, mantissaBits))
    ensures f.None? ==> forall g: TypeFormat :: g.FloatLayout() != Some((signBits, exponentBits, mantissaBits))
  {
    match (signBits, exponentBits, mantissaBits)
    case (1, 8, 23) => Some(TypeFormat.Float)
    case (1, 11, 52) => Some(Double)
    case _ => None
  }

  /** The analysis of a scalar shape. */
  function AnalyzeScalar(s: Shape): Result<Analysis, Unsupported>
    requires s.IsScalar()
  {
    match s
    case Integer(_, bits, sign) => Ok(Analysis(BareNode(Type.Integer, Some(IntegerFormat(bits, sign))), map[]))
    case Float(name, sb, eb, mb) =>
      (match FloatFormat(sb, eb, mb)
       case Some(f) => Ok(Analysis(BareNode(Number, Some(f)), map[]))
       case None => Err(UnsupportedFloatLayout(name, sb, eb, mb)))
    case Fixed(name, _, _, _) => Err(UnsupportedFixedPoint(name))
    case OtherNumber(name) => Err(UnsupportedNumberBits(name))
    case Str(_) => Ok(Analysis(BareNode(Type.String, None), map[]))
    case Bool(_) => Ok(Analysis(BareNode(Boolean, None), map[]))
    case OtherScalar(name, affinity) => Err(UnsupportedScalar(name, affinity))
  }

  /** True of shapes whose definition is a struct, of whatever kind. */
  predicate IsStruct(s: Shape) {
    s.Struct?
  }

  /** True of fields that count as optional: those whose type is named
      `Option`. */
  predicate IsOptional(f: Field) {
    TypeName(f.shape) == "Option"
  }

  /** The names of the non-optional fields, in declaration order. */
  function RequiredFields(fields: seq<Field>): seq<string> {
    if fields == [] then []
    else
      var last := fields[|fields| - 1];
      RequiredFields(fields[..|fields| - 1]) + if IsOptional(last) then [] else [last.name]
  }

  /** The object node of a plain struct, given its fields and the properties
      built from them. */
  function StructNode(fields: seq<Field>, properties: map<string, Property>): Property {
    TypeNode(Object, None, Some(RequiredFields(fields)), Present(properties), None, None)
  }

  /** The analysis of a shape: its node and the definitions met below it,
      or the first unsupported type met in field order. */
  function Analyze(s: Shape): Result<Analysis, Unsupported>
    decreases s
  {
    match s
    case Struct(name, kind, fields) =>
      if kind != PlainStruct then Err(UnsupportedStructKind(name, kind))
      else
        var acc :- AnalyzeFields(fields);
        Ok(Analysis(StructNode(fields, acc.properties), acc.definitions))
    case Map(_) => Ok(Analysis(BareNode(Object, None), map[]))
    case List(_) => Ok(Analysis(BareNode(Array, None), map[]))
    case Enum(name) => Err(UnsupportedEnum(name))
    case Other(name) => Err(UnsupportedDef(name))
    case _ => AnalyzeScalar(s)
  }

  /** The fields of a struct analyzed in order, each folded into what the
      earlier ones built. */
  function AnalyzeFields(fields: seq<Field>): Result<Accumulated, Unsupported>
    decreases fields
  {
    if fields == [] then Ok(Accumulated(map[], map[]))
    else
      var acc :- AnalyzeFields(fields[..|fields| - 1]);
      AddField(acc, fields[|fields| - 1])
  }

  /** One step of the field loop: a struct-typed field becomes a `$ref` and
      its node is registered under its type name before the definitions met
      below it are merged over; any other field is inlined and its
      definitions merged. Later entries overwrite earlier ones. */
  function AddField(acc: Accumulated, f: Field): Result<Accumulated, Unsupported>
    decreases f
  {
    var a :- Analyze(f.shape);
    if IsStruct(f.shape) then
      var structName := TypeName(f.shape);
      Ok(Accumulated(
        acc.properties[f.name := Ref(DefinitionPointer(structName))],
        acc.definitions[structName := a.node] + a.definitions))
    else
      Ok(Accumulated(acc.properties[f.name := a.node], acc.definitions + a.definitions))
  }

  /** Once a prefix of the fields fails, the whole field list fails with the
      same error: the loop may stop at the first failing field. */
  lemma {:induction false} FailurePersists(fields: seq<Field>, n: nat)
    requires n <= |fields| && AnalyzeFields(fields[..n]).Err?
    ensures AnalyzeFields(fields) == AnalyzeFields(fields[..n])
    decreases |fields| - n
  {
    if n < |fields| {
      var longer := fields[..n + 1];
      assert longer[..n] == fields[..n];
      FailurePersists(fields, n + 1);
    } else {
      assert fields[..n] == fields;
    }
  }

  /** The analyzer as it runs: the fields of a plain struct are visited in a
      loop that updates the property and definition maps in place, stopping
      at the first field whose analysis fails. */
  method AnalyzeShape(s: Shape) returns (r: Result<Analysis, Unsupported>)
    ensures r == Analyze(s)
    decreases s
  {
    match s {
      case Struct(name, kind, fields) =>
        if kind != PlainStruct {
          return Err(UnsupportedStructKind(name, kind));
        }
        var properties: map<string, Property> := map[];
        var definitions: Definitions := map[];
        var i := 0;
        while i < |fields|
          invariant 0 <= i <= |fields|
          invariant AnalyzeFields(fields[..i]) == Ok(Accumulated(properties, definitions))
        {
          var field := fields[i];
          assert fields[..i + 1][..i] == fields[..i];
          var sub := AnalyzeShape(field.shape);
          if sub.Err? {
            FailurePersists(fields, i + 1);
            return Err(sub.error);
          }
          if IsStruct(field.shape) {
            var structName := TypeName(field.shape);
            definitions := definitions[structName := sub.value.node];
            definitions := definitions + sub.value.definitions;
            properties := properties[field.name := Ref(DefinitionPointer(structName))];
          } else {
            definitions := definitions + sub.value.definitions;
            properties := properties[field.name := sub.value.node];
          }
          i := i + 1;
        }
        assert fields[..i] == fields;
        return Ok(Analysis(StructNode(fields, properties), definitions));
      case Map(_) =>
        return Ok(Analysis(BareNode(Object, None), map[]));
      case List(_) =>
        return Ok(Analysis(BareNode(Array, None), map[]));
      case Enum(name) =>
        return Err(UnsupportedEnum(name));
      case Other(name) =>
        return Err(UnsupportedDef(name));
      case _ =>
        return AnalyzeScalar(s);
    }
  }

  /** The schema document for a root shape: the draft-07 marker, the root's
      type name as title, and the root's analysis. */
  function BuildSchema(root: Shape): (r: Result<Schema, Unsupported>)
    ensures r.Ok? <==> Analyze(root).Ok?
    ensures r.Ok? ==> r.value.schema == Draft07 && r.value.title == TypeName(root)
    ensures r.Ok? ==> Analyze(root) == Ok(Analysis(r.value.rootProperty, r.value.definitions))
    ensures r.Err? ==> r.error == Analyze(root).error
  {
    var a :- Analyze(root);
    Ok(Schema(Draft07, TypeName(root), a.node, a.definitions))
  }
}
