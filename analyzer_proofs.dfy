/**
 * What the analyzer promises, proved about its specification `Analyze`
 * (and therefore, through `AnalyzeShape`'s postcondition, about the
 * analyzer as it runs).
 */
module AnalyzerProofs {
  import opened Wrappers
  import opened Shapes
  import opened JsonSchema
  import opened Analyzer

  // ---------------------------------------------------------------------
  // Format tables and leaf nodes
  // ---------------------------------------------------------------------

  /** Each float tag is produced by exactly its own IEEE 754 layout. */
  lemma FloatFormatExactly(signBits: nat, exponentBits: nat, mantissaBits: nat)
    ensures FloatFormat(signBits, exponentBits, mantissaBits) == Some(TypeFormat.Float)
            <==> (signBits, exponentBits, mantissaBits) == (1, 8, 23)
    ensures FloatFormat(signBits, exponentBits, mantissaBits) == Some(Double)
            <==> (signBits, exponentBits, mantissaBits) == (1, 11, 52)
    ensures FloatFormat(signBits, exponentBits, mantissaBits).None?
            <==> (signBits, exponentBits, mantissaBits) !in {(1, 8, 23), (1, 11, 52)}
  {
  }

  /** Scalars, maps and lists give a node carrying only a type (and a format
      for numbers) and contribute no definitions; the unsupported ones fail. */
  lemma LeafShapes(s: Shape)
    requires !s.Struct?
    ensures s.Integer? ==>
      Analyze(s) == Ok(Analysis(BareNode(Type.Integer, Some(IntegerFormat(s.bits, s.sign))), map[]))
    ensures s.Float? ==>
      match FloatFormat(s.signBits, s.exponentBits, s.mantissaBits)
      case Some(f) => Analyze(s) == Ok(Analysis(BareNode(Number, Some(f)), map[]))
      case None => Analyze(s) == Err(UnsupportedFloatLayout(s.name, s.signBits, s.exponentBits, s.mantissaBits))
    ensures s.Str? ==> Analyze(s) == Ok(Analysis(BareNode(Type.String, None), map[]))
    ensures s.Bool? ==> Analyze(s) == Ok(Analysis(BareNode(Boolean, None), map[]))
    ensures s.Map? ==> Analyze(s) == Ok(Analysis(BareNode(Object, None), map[]))
    ensures s.List? ==> Analyze(s) == Ok(Analysis(BareNode(Array, None), map[]))
    ensures s.Fixed? ==> Analyze(s) == Err(UnsupportedFixedPoint(s.name))
    ensures s.OtherNumber? ==> Analyze(s) == Err(UnsupportedNumberBits(s.name))
    ensures s.OtherScalar? ==> Analyze(s) == Err(UnsupportedScalar(s.name, s.affinity))
    ensures s.Enum? ==> Analyze(s) == Err(UnsupportedEnum(s.name))
    ensures s.Other? ==> Analyze(s) == Err(UnsupportedDef(s.name))
  {
  }

  // ---------------------------------------------------------------------
  // The required list
  // ---------------------------------------------------------------------

  /** The positions of the non-optional fields, in increasing order. */
  ghost function RequiredIndices(fields: seq<Field>): seq<nat> {
    if fields == [] then []
    else
      var n := |fields| - 1;
      RequiredIndices(fields[..n]) + if IsOptional(fields[n]) then [] else [n]
  }

  /** `required` lists, in declaration order, the names of exactly the
      fields whose type is not named `Option`. */
  lemma {:induction false} RequiredFieldsInOrder(fields: seq<Field>)
    ensures |RequiredIndices(fields)| == |RequiredFields(fields)|
    ensures forall k :: 0 <= k < |RequiredIndices(fields)| ==>
      RequiredIndices(fields)[k] < |fields| && RequiredFields(fields)[k] == fields[RequiredIndices(fields)[k]].name
    ensures forall k, l :: 0 <= k < l < |RequiredIndices(fields)| ==> RequiredIndices(fields)[k] < RequiredIndices(fields)[l]
    ensures forall i :: 0 <= i < |fields| ==> (i in RequiredIndices(fields) <==> !IsOptional(fields[i]))
  {
    if fields != [] {
      var n := |fields| - 1;
      var prefix := fields[..n];
      RequiredFieldsInOrder(prefix);
      assert forall i :: 0 <= i < n ==> prefix[i] == fields[i];
    }
  }

  // ---------------------------------------------------------------------
  // Facts about the field fold
  // ---------------------------------------------------------------------

  /** The node a field contributes to `properties`. */
  function FieldNode(f: Field): Property
    requires Analyze(f.shape).Ok?
  {
    if IsStruct(f.shape) then Ref(DefinitionPointer(TypeName(f.shape)))
    else Analyze(f.shape).value.node
  }

  /** The definitions a field contributes: for a struct-typed field its own
      node under its type name, overwritten by whatever was met below it. */
  ghost function Contribution(f: Field): Definitions {
    match Analyze(f.shape)
    case Ok(a) => if IsStruct(f.shape) then map[TypeName(f.shape) := a.node] + a.definitions else a.definitions
    case Err(_) => map[]
  }

  /** No later field has the same name as field `i`. */
  ghost predicate IsLastNamed(fields: seq<Field>, i: nat)
    requires i < |fields|
  {
    forall j :: i < j < |fields| ==> fields[j].name != fields[i].name
  }

  /** No later field contributes a definition named `k`. */
  ghost predicate IsLastContributor(fields: seq<Field>, i: nat, k: string)
    requires i < |fields|
  {
    forall j :: i < j < |fields| ==> k !in Contribution(fields[j])
  }

  /** The field fold succeeds exactly when every field's analysis does. */
  lemma {:induction false} AnalyzeFieldsOk(fields: seq<Field>)
    ensures AnalyzeFields(fields).Ok? <==> forall i :: 0 <= i < |fields| ==> Analyze(fields[i].shape).Ok?
  {
    if fields != [] {
      var n := |fields| - 1;
      AnalyzeFieldsOk(fields[..n]);
      assert forall i :: 0 <= i < n ==> fields[..n][i] == fields[i];
    }
  }

  /** A failing fold fails with the error of the first failing field. */
  lemma {:induction false} FirstFailure(fields: seq<Field>)
    requires AnalyzeFields(fields).Err?
    ensures exists i :: (0 <= i < |fields| && Analyze(fields[i].shape) == Err(AnalyzeFields(fields).error)
                         && forall j :: 0 <= j < i ==> Analyze(fields[j].shape).Ok?)
  {
    var n := |fields| - 1;
    var prefix := fields[..n];
    assert forall i :: 0 <= i < n ==> prefix[i] == fields[i];
    if AnalyzeFields(prefix).Err? {
      FirstFailure(prefix);
      var i :| 0 <= i < n && Analyze(prefix[i].shape) == Err(AnalyzeFields(prefix).error)
        && forall j :: 0 <= j < i ==> Analyze(prefix[j].shape).Ok?;
      assert Analyze(fields[i].shape) == Err(AnalyzeFields(fields).error);
    } else {
      AnalyzeFieldsOk(prefix);
      assert Analyze(fields[n].shape) == Err(AnalyzeFields(fields).error);
    }
  }

  /** One successful step of the fold: the field's node goes under its name
      and its contribution is merged over the definitions so far. */
  lemma AddFieldStep(acc: Accumulated, f: Field)
    requires AddField(acc, f).Ok?
    ensures Analyze(f.shape).Ok?
    ensures AddField(acc, f).value.properties == acc.properties[f.name := FieldNode(f)]
    ensures AddField(acc, f).value.definitions == acc.definitions + Contribution(f)
  {
  }

  /** The struct test looks only at the shape's definition, not at the
      struct's kind: every struct-typed field takes the `$ref` branch. A
      field of a tuple struct, a tuple or another kind therefore does not
      fall back to an inlined node; it fails with its kind's error. A plain
      struct field that succeeds is a `$ref` to its type name, which is then
      defined, and any other field is inlined. */
  lemma StructFieldOfAnyKind(acc: Accumulated, f: Field)
    ensures IsStruct(f.shape) <==> f.shape.Struct?
    ensures f.shape.Struct? && f.shape.kind != PlainStruct ==>
              AddField(acc, f) == Err(UnsupportedStructKind(f.shape.name, f.shape.kind))
    ensures f.shape.Struct? && AddField(acc, f).Ok? ==>
              AddField(acc, f).value.properties[f.name] == Ref(DefinitionPointer(TypeName(f.shape)))
              && TypeName(f.shape) in AddField(acc, f).value.definitions
    ensures !f.shape.Struct? && AddField(acc, f).Ok? ==>
              AddField(acc, f).value.properties[f.name] == Analyze(f.shape).value.node
  {
  }

  /** The fold over a non-empty list is the fold over all but the last field
      followed by one step. */
  lemma FoldStep(fields: seq<Field>)
    requires fields != [] && AnalyzeFields(fields).Ok?
    ensures AnalyzeFields(fields[..|fields| - 1]).Ok?
    ensures AddField(AnalyzeFields(fields[..|fields| - 1]).value, fields[|fields| - 1]) == AnalyzeFields(fields)
  {
  }

  /** The names of the fields. */
  ghost function FieldNames(fields: seq<Field>): set<string> {
    set i | 0 <= i < |fields| :: fields[i].name
  }

  /** `properties` has one entry per field name, and the entry for a name is
      the node of the last field with that name: its `$ref` when its type is
      a struct and its inlined node otherwise. */
  lemma {:induction false} FieldsProperties(fields: seq<Field>)
    requires AnalyzeFields(fields).Ok?
    ensures AnalyzeFields(fields).value.properties.Keys == FieldNames(fields)
    ensures forall i :: 0 <= i < |fields| && IsLastNamed(fields, i) ==>
      Analyze(fields[i].shape).Ok? && AnalyzeFields(fields).value.properties[fields[i].name] == FieldNode(fields[i])
  {
    if fields != [] {
      var n := |fields| - 1;
      var prefix := fields[..n];
      FoldStep(fields);
      FieldsProperties(prefix);
      var acc := AnalyzeFields(prefix).value;
      AddFieldStep(acc, fields[n]);
      AnalyzeFieldsOk(fields);
      ghost var nodes := seq(|fields|, i requires 0 <= i < |fields| => FieldNode(fields[i]));
      assert forall i :: 0 <= i < n ==> prefix[i] == fields[i];
      KeysStep(fields, acc.properties.Keys, AnalyzeFields(fields).value.properties.Keys);
      PropertiesStep(fields, nodes, acc.properties, AnalyzeFields(fields).value.properties);
    }
  }

  /** The inductive step of `FieldsProperties` for the keys. */
  lemma KeysStep(fields: seq<Field>, before: set<string>, after: set<string>)
    requires fields != []
    requires before == FieldNames(fields[..|fields| - 1])
    requires after == before + {fields[|fields| - 1].name}
    ensures after == FieldNames(fields)
  {
    var n := |fields| - 1;
    var prefix := fields[..n];
    forall x ensures x in after <==> x in FieldNames(fields) {
      if x in before {
        var i :| 0 <= i < n && prefix[i].name == x;
        assert fields[i].name == x;
      }
      if x in FieldNames(fields) {
        var i :| 0 <= i < |fields| && fields[i].name == x;
        if i < n {
          assert prefix[i].name == x;
        }
      }
    }
  }

  /** The inductive step of `FieldsProperties` for the values: updating a
      map field by field leaves each name with the node of its last field. */
  lemma PropertiesStep(fields: seq<Field>, nodes: seq<Property>, before: map<string, Property>, after: map<string, Property>)
    requires fields != [] && |nodes| == |fields|
    requires forall i :: 0 <= i < |fields| - 1 && IsLastNamed(fields[..|fields| - 1], i) ==>
      fields[i].name in before && before[fields[i].name] == nodes[i]
    requires after == before[fields[|fields| - 1].name := nodes[|fields| - 1]]
    ensures forall i :: 0 <= i < |fields| && IsLastNamed(fields, i) ==>
      fields[i].name in after && after[fields[i].name] == nodes[i]
  {
    var n := |fields| - 1;
    var prefix := fields[..n];
    forall i | 0 <= i < |fields| && IsLastNamed(fields, i)
      ensures fields[i].name in after && after[fields[i].name] == nodes[i]
    {
      if i < n {
        assert fields[i].name != fields[n].name;
        assert IsLastNamed(prefix, i) by {
          forall j | i < j < n ensures prefix[j].name != prefix[i].name {
            assert prefix[j] == fields[j];
          }
        }
      }
    }
  }

  /** `definitions` holds a name exactly when some field contributes it, and
      holds the contribution of the last field that does: a struct-typed
      field's own entry is overwritten by entries met below it and by later
      fields. */
  lemma {:induction false} DefinitionsMerge(fields: seq<Field>)
    requires AnalyzeFields(fields).Ok?
    ensures forall k :: k in AnalyzeFields(fields).value.definitions <==>
      exists i :: 0 <= i < |fields| && k in Contribution(fields[i])
    ensures forall i, k :: 0 <= i < |fields| && k in Contribution(fields[i]) && IsLastContributor(fields, i, k) ==>
      AnalyzeFields(fields).value.definitions[k] == Contribution(fields[i])[k]
  {
    if fields != [] {
      var n := |fields| - 1;
      var prefix := fields[..n];
      assert forall i :: 0 <= i < n ==> prefix[i] == fields[i];
      FoldStep(fields);
      DefinitionsMerge(prefix);
      AddFieldStep(AnalyzeFields(prefix).value, fields[n]);
      var before := AnalyzeFields(prefix).value.definitions;
      var after := AnalyzeFields(fields).value.definitions;
      assert after == before + Contribution(fields[n]);
      forall i, k | 0 <= i < |fields| && k in Contribution(fields[i]) && IsLastContributor(fields, i, k)
        ensures after[k] == Contribution(fields[i])[k]
      {
        if i < n {
          assert IsLastContributor(prefix, i, k);
        }
      }
    }
  }

  // ---------------------------------------------------------------------
  // Plain structs
  // ---------------------------------------------------------------------

  /** A struct shape analyzes successfully only when it is a plain struct;
      its node is an object whose `required` is always present and whose
      `properties` map each field name to the last such field's node. */
  lemma StructShape(s: Shape)
    requires s.Struct? && Analyze(s).Ok?
    ensures s.kind == PlainStruct
    ensures Analyze(s).value.node.TypeNode? && Analyze(s).value.node.ty == Object
    ensures Analyze(s).value.node.format.None?
    ensures Analyze(s).value.node.required == Some(RequiredFields(s.fields))
    ensures Analyze(s).value.node.properties.Present?
    ensures Analyze(s).value.node.properties.entries.Keys == FieldNames(s.fields)
    ensures forall i :: 0 <= i < |s.fields| && IsLastNamed(s.fields, i) ==>
      Analyze(s.fields[i].shape).Ok? && Analyze(s).value.node.properties.entries[s.fields[i].name] == FieldNode(s.fields[i])
  {
    FieldsProperties(s.fields);
  }

  // ---------------------------------------------------------------------
  // Which shapes are supported
  // ---------------------------------------------------------------------

  /** The shapes the analyzer supports: integers, strings, booleans, maps,
      lists, floats with an IEEE 754 single or double layout, and plain
      structs all of whose fields are supported. */
  ghost predicate Supported(s: Shape)
    decreases s
  {
    match s
    case Integer(_, _, _) => true
    case Float(_, sb, eb, mb) => (sb, eb, mb) == (1, 8, 23) || (sb, eb, mb) == (1, 11, 52)
    case Str(_) => true
    case Bool(_) => true
    case Map(_) => true
    case List(_) => true
    case Struct(_, kind, fields) => kind == PlainStruct && forall i :: 0 <= i < |fields| ==> Supported(fields[i].shape)
    case _ => false
  }

  /** The analysis succeeds exactly on supported shapes: any unsupported
      type anywhere below a struct fails the whole analysis. */
  lemma {:induction false} AnalyzeSucceedsIff(s: Shape)
    ensures Analyze(s).Ok? <==> Supported(s)
    decreases s
  {
    if s.Struct? && s.kind == PlainStruct {
      AnalyzeFieldsOk(s.fields);
      forall i | 0 <= i < |s.fields| ensures Analyze(s.fields[i].shape).Ok? <==> Supported(s.fields[i].shape) {
        AnalyzeSucceedsIff(s.fields[i].shape);
      }
    }
  }

  /** A failing plain struct fails with the error of its first failing
      field. */
  lemma StructFailure(s: Shape)
    requires s.Struct? && s.kind == PlainStruct && Analyze(s).Err?
    ensures exists i :: (0 <= i < |s.fields| && Analyze(s.fields[i].shape) == Analyze(s)
                         && forall j :: 0 <= j < i ==> Analyze(s.fields[j].shape).Ok?)
  {
    FirstFailure(s.fields);
  }

  // ---------------------------------------------------------------------
  // Which names are defined
  // ---------------------------------------------------------------------

  /** The type names of the struct-typed fields anywhere below a shape. */
  ghost function NestedStructNames(s: Shape): set<string>
    decreases s
  {
    match s
    case Struct(_, _, fields) => set i, n | 0 <= i < |fields| && n in FieldStructNames(fields[i]) :: n
    case _ => {}
  }

  /** The type names of the struct-typed fields at or below a field. */
  ghost function FieldStructNames(f: Field): set<string>
    decreases f
  {
    (if IsStruct(f.shape) then {TypeName(f.shape)} else {}) + NestedStructNames(f.shape)
  }

  /** `definitions` names exactly the structs met in field position at any
      depth, so a doubly nested struct is defined at the root; it is empty
      exactly when there are none. */
  lemma {:induction false} DefinitionKeys(s: Shape)
    requires Analyze(s).Ok?
    ensures Analyze(s).value.definitions.Keys == NestedStructNames(s)
    decreases s
  {
    if s.Struct? {
      var fields := s.fields;
      DefinitionsMerge(fields);
      AnalyzeFieldsOk(fields);
      ghost var contributed := seq(|fields|, i requires 0 <= i < |fields| => Contribution(fields[i]).Keys);
      forall i | 0 <= i < |fields| ensures contributed[i] == FieldStructNames(fields[i]) {
        DefinitionKeys(fields[i].shape);
      }
      var defs := Analyze(s).value.definitions;
      assert defs == AnalyzeFields(fields).value.definitions;
      forall x | x in defs ensures x in NestedStructNames(s) {
        var i :| 0 <= i < |fields| && x in Contribution(fields[i]);
        assert x in contributed[i];
      }
      forall x | x in NestedStructNames(s) ensures x in defs {
        var i :| 0 <= i < |fields| && x in FieldStructNames(fields[i]);
        assert x in contributed[i];
      }
    }
  }

  // ---------------------------------------------------------------------
  // References are closed, and what is emitted
  // ---------------------------------------------------------------------

  /** Every `$ref` in a node designates one of `keys`. */
  ghost predicate Closed(p: Property, keys: set<string>)
    decreases p
  {
    match p
    case Ref(ptr) => PointerTarget(ptr).Some? && PointerTarget(ptr).value in keys
    case TypeNode(_, _, _, Absent, _, _) => true
    case TypeNode(_, _, _, Present(props), _, _) => forall k :: k in props ==> Closed(props[k], keys)
    case AnyOf(_) => true
  }

  /** A node of the kinds the analyzer produces: no `anyOf`, and no bounds. */
  ghost predicate Emitted(p: Property)
    decreases p
  {
    match p
    case Ref(_) => true
    case TypeNode(_, _, _, Absent, minimum, maximum) => minimum.None? && maximum.None?
    case TypeNode(_, _, _, Present(props), minimum, maximum) =>
      minimum.None? && maximum.None? && forall k :: k in props ==> Emitted(props[k])
    case AnyOf(_) => false
  }

  /** The node of a plain struct, as far as its outline goes. */
  ghost predicate IsObjectNode(p: Property) {
    p.TypeNode? && p.ty == Object && p.required.Some? && p.properties.Present?
  }

  /** Every definition is a struct's object node, emitted, whose `$ref`s
      designate definitions of the same map. */
  ghost predicate DefinitionsClosed(defs: Definitions) {
    forall k :: k in defs ==> IsObjectNode(defs[k]) && Emitted(defs[k]) && Closed(defs[k], defs.Keys)
  }

  /** Closedness survives growing the set of names. */
  lemma {:induction false} ClosedGrows(p: Property, keys: set<string>, more: set<string>)
    requires Closed(p, keys) && keys <= more
    ensures Closed(p, more)
    decreases p
  {
    match p
    case TypeNode(_, _, _, Present(props), _, _) =>
      forall k | k in props ensures Closed(props[k], more) {
        ClosedGrows(props[k], keys, more);
      }
    case _ =>
  }

  /** The analysis of a supported shape is a typed node (an object node for
      a struct) and definitions such that every `$ref` in either designates
      a key of the definitions, no bound is set and no `anyOf` appears. */
  lemma {:induction false} AnalysisClosed(s: Shape)
    requires Analyze(s).Ok?
    ensures Analyze(s).value.node.TypeNode?
    ensures IsStruct(s) ==> IsObjectNode(Analyze(s).value.node)
    ensures Emitted(Analyze(s).value.node)
    ensures Closed(Analyze(s).value.node, Analyze(s).value.definitions.Keys)
    ensures DefinitionsClosed(Analyze(s).value.definitions)
    decreases s
  {
    if s.Struct? {
      FieldsClosed(s.fields);
    }
  }

  /** The invariant of the field fold: every property so far and every
      definition so far is emitted and closed over the definitions so far. */
  lemma {:induction false} FieldsClosed(fields: seq<Field>)
    requires AnalyzeFields(fields).Ok?
    ensures forall k :: k in AnalyzeFields(fields).value.properties ==>
      Emitted(AnalyzeFields(fields).value.properties[k])
      && Closed(AnalyzeFields(fields).value.properties[k], AnalyzeFields(fields).value.definitions.Keys)
    ensures DefinitionsClosed(AnalyzeFields(fields).value.definitions)
    decreases fields
  {
    if fields != [] {
      var n := |fields| - 1;
      FoldStep(fields);
      FieldsClosed(fields[..n]);
      var acc := AnalyzeFields(fields[..n]).value;
      AddFieldStep(acc, fields[n]);
      AnalysisClosed(fields[n].shape);
      StepClosed(acc, fields[n], AnalyzeFields(fields).value);
    }
  }

  /** One step of the fold keeps the invariant of `FieldsClosed`. */
  lemma StepClosed(acc: Accumulated, f: Field, next: Accumulated)
    requires forall k :: k in acc.properties ==>
      Emitted(acc.properties[k]) && Closed(acc.properties[k], acc.definitions.Keys)
    requires DefinitionsClosed(acc.definitions)
    requires Analyze(f.shape).Ok?
    requires IsStruct(f.shape) ==> IsObjectNode(Analyze(f.shape).value.node)
    requires Emitted(Analyze(f.shape).value.node)
    requires Closed(Analyze(f.shape).value.node, Analyze(f.shape).value.definitions.Keys)
    requires DefinitionsClosed(Analyze(f.shape).value.definitions)
    requires next.properties == acc.properties[f.name := FieldNode(f)]
    requires next.definitions == acc.definitions + Contribution(f)
    ensures forall k :: k in next.properties ==>
      Emitted(next.properties[k]) && Closed(next.properties[k], next.definitions.Keys)
    ensures DefinitionsClosed(next.definitions)
  {
    var a := Analyze(f.shape).value;
    var keys := next.definitions.Keys;
    assert acc.definitions.Keys <= keys && a.definitions.Keys <= keys;
    if IsStruct(f.shape) {
      assert TypeName(f.shape) in keys;
      assert Closed(FieldNode(f), keys);
    } else {
      ClosedGrows(a.node, a.definitions.Keys, keys);
    }
    forall k | k in next.properties
      ensures Emitted(next.properties[k]) && Closed(next.properties[k], keys)
    {
      if k != f.name {
        ClosedGrows(acc.properties[k], acc.definitions.Keys, keys);
      }
    }
    forall k | k in next.definitions
      ensures IsObjectNode(next.definitions[k]) && Emitted(next.definitions[k]) && Closed(next.definitions[k], keys)
    {
      if k in a.definitions {
        ClosedGrows(a.definitions[k], a.definitions.Keys, keys);
      } else if IsStruct(f.shape) && k == TypeName(f.shape) {
        ClosedGrows(a.node, a.definitions.Keys, keys);
      } else {
        ClosedGrows(acc.definitions[k], acc.definitions.Keys, keys);
      }
    }
  }
}
