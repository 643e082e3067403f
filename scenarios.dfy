/**
 * The three structs of the analyzer's own unit tests, worked through the
 * model. Each scenario is stated for any choice of struct and field names,
 * so the tests' own names are one instance. `usize` is taken at 64 bits.
 */
module Scenarios {
  import opened Wrappers
  import opened Shapes
  import opened JsonSchema
  import opened Analyzer

  const I32: Shape := Shape.Integer("i32", 32, Signed)

  const Int32Node: Property := BareNode(Type.Integer, Some(Int32))

  // Steps of the analysis, used to work each scenario through one field at
  // a time.

  /** Folding one more field into a successful fold is one `AddField`. */
  lemma FoldSnoc(prefix: seq<Field>, f: Field, acc: Accumulated)
    requires AnalyzeFields(prefix) == Ok(acc)
    ensures AnalyzeFields(prefix + [f]) == AddField(acc, f)
    ensures RequiredFields(prefix + [f]) == RequiredFields(prefix) + if IsOptional(f) then [] else [f.name]
  {
    assert (prefix + [f])[..|prefix|] == prefix;
  }

  /** A field of a non-struct type with no definitions is inlined. */
  lemma InlineStep(acc: Accumulated, f: Field, node: Property)
    requires !IsStruct(f.shape) && Analyze(f.shape) == Ok(Analysis(node, map[]))
    ensures AddField(acc, f) == Ok(Accumulated(acc.properties[f.name := node], acc.definitions))
  {
    assert acc.definitions + map[] == acc.definitions;
  }

  /** A struct-typed field becomes a `$ref` to its registered node. */
  lemma RefStep(acc: Accumulated, f: Field, a: Analysis)
    requires IsStruct(f.shape) && Analyze(f.shape) == Ok(a)
    ensures AddField(acc, f) == Ok(Accumulated(
      acc.properties[f.name := Ref(DefinitionPointer(TypeName(f.shape)))],
      acc.definitions[TypeName(f.shape) := a.node] + a.definitions))
  {
  }

  /** A plain struct whose fields fold successfully. */
  lemma PlainStructStep(name: string, fields: seq<Field>, acc: Accumulated)
    requires AnalyzeFields(fields) == Ok(acc)
    ensures Analyze(Struct(name, PlainStruct, fields)) == Ok(Analysis(StructNode(fields, acc.properties), acc.definitions))
  {
  }

  /** `struct WowSoTest { much: String, tdd: bool, is: i8, happening: usize }`
      gives an object node with all four fields required, their primitive
      nodes inlined, and no definitions. */
  lemma SimpleStructSchema(name: string, much: string, tdd: string, isField: string, happening: string)
    ensures BuildSchema(Struct(name, PlainStruct, [
      Field(much, Str("String")),
      Field(tdd, Bool("bool")),
      Field(isField, Shape.Integer("i8", 8, Signed)),
      Field(happening, Shape.Integer("usize", 64, Unsigned))])) == Ok(Schema(
      Draft07,
      name,
      TypeNode(Object, None, Some([much, tdd, isField, happening]), Present(map[
        much := BareNode(Type.String, None),
        tdd := BareNode(Boolean, None),
        isField := BareNode(Type.Integer, Some(Int8)),
        happening := BareNode(Type.Integer, Some(Uint64))]), None, None),
      map[]))
  {
    var fields := [
      Field(much, Str("String")),
      Field(tdd, Bool("bool")),
      Field(isField, Shape.Integer("i8", 8, Signed)),
      Field(happening, Shape.Integer("usize", 64, Unsigned))];
    var properties := map[
      much := BareNode(Type.String, None),
      tdd := BareNode(Boolean, None),
      isField := BareNode(Type.Integer, Some(Int8)),
      happening := BareNode(Type.Integer, Some(Uint64))];
    FourInlineFields(fields[0], fields[1], fields[2], fields[3],
      BareNode(Type.String, None), BareNode(Boolean, None),
      BareNode(Type.Integer, Some(Int8)), BareNode(Type.Integer, Some(Uint64)));
    PlainStructStep(name, fields, Accumulated(properties, map[]));
  }

  /** Folding one more inlined field into a successful fold. */
  lemma InlineSnoc(prefix: seq<Field>, f: Field, acc: Accumulated, node: Property)
    requires AnalyzeFields(prefix) == Ok(acc)
    requires !IsStruct(f.shape) && Analyze(f.shape) == Ok(Analysis(node, map[]))
    ensures AnalyzeFields(prefix + [f]) == Ok(Accumulated(acc.properties[f.name := node], acc.definitions))
    ensures RequiredFields(prefix + [f]) == RequiredFields(prefix) + if IsOptional(f) then [] else [f.name]
  {
    InlineStep(acc, f, node);
    FoldSnoc(prefix, f, acc);
  }

  /** Four inlined, non-optional fields (their names need not differ: a later
      field replaces an earlier one of the same name). */
  lemma FourInlineFields(f0: Field, f1: Field, f2: Field, f3: Field,
                         n0: Property, n1: Property, n2: Property, n3: Property)
    requires !IsStruct(f0.shape) && Analyze(f0.shape) == Ok(Analysis(n0, map[])) && !IsOptional(f0)
    requires !IsStruct(f1.shape) && Analyze(f1.shape) == Ok(Analysis(n1, map[])) && !IsOptional(f1)
    requires !IsStruct(f2.shape) && Analyze(f2.shape) == Ok(Analysis(n2, map[])) && !IsOptional(f2)
    requires !IsStruct(f3.shape) && Analyze(f3.shape) == Ok(Analysis(n3, map[])) && !IsOptional(f3)
    ensures AnalyzeFields([f0, f1, f2, f3])
         == Ok(Accumulated(map[f0.name := n0, f1.name := n1, f2.name := n2, f3.name := n3], map[]))
    ensures RequiredFields([f0, f1, f2, f3]) == [f0.name, f1.name, f2.name, f3.name]
  {
    var acc0 := Accumulated(map[], map[]);
    var acc1 := Accumulated(map[f0.name := n0], map[]);
    var acc2 := Accumulated(map[f0.name := n0, f1.name := n1], map[]);
    var acc3 := Accumulated(map[f0.name := n0, f1.name := n1, f2.name := n2], map[]);
    assert AnalyzeFields([]) == Ok(acc0) && RequiredFields([]) == [];
    InlineSnoc([], f0, acc0, n0);
    assert [] + [f0] == [f0];
    InlineSnoc([f0], f1, acc1, n1);
    assert [f0] + [f1] == [f0, f1];
    InlineSnoc([f0, f1], f2, acc2, n2);
    assert [f0, f1] + [f2] == [f0, f1, f2];
    InlineSnoc([f0, f1, f2], f3, acc3, n3);
    assert [f0, f1, f2] + [f3] == [f0, f1, f2, f3];
  }

  /** A plain struct with one `i32` field, as the innermost struct of each
      nested test is. */
  lemma OneIntFieldStruct(name: string, fieldName: string)
    ensures Analyze(Struct(name, PlainStruct, [Field(fieldName, I32)])) == Ok(Analysis(
      TypeNode(Object, None, Some([fieldName]), Present(map[fieldName := Int32Node]), None, None),
      map[]))
  {
    var field := Field(fieldName, I32);
    var acc0 := Accumulated(map[], map[]);
    assert AnalyzeFields([]) == Ok(acc0) && RequiredFields([]) == [];
    InlineStep(acc0, field, Int32Node);
    FoldSnoc([], field, acc0);
    assert [] + [field] == [field];
    assert RequiredFields([field]) == [fieldName];
    PlainStructStep(name, [field], Accumulated(map[fieldName := Int32Node], map[]));
  }

  /** A struct whose first field is an `i32` and whose second field is a
      struct, as the outer struct of each nested test is. */
  lemma IntThenStructField(name: string, first: string, second: string, inner: Shape, a: Analysis)
    requires inner.Struct? && TypeName(inner) != "Option" && Analyze(inner) == Ok(a)
    ensures Analyze(Struct(name, PlainStruct, [Field(first, I32), Field(second, inner)])) == Ok(Analysis(
      TypeNode(Object, None, Some([first, second]), Present(map[
        first := Int32Node,
        second := Ref(DefinitionPointer(TypeName(inner)))]), None, None),
      map[TypeName(inner) := a.node] + a.definitions))
  {
    var fields := [Field(first, I32), Field(second, inner)];
    var acc0 := Accumulated(map[], map[]);
    var acc1 := Accumulated(map[first := Int32Node], map[]);
    assert AnalyzeFields([]) == Ok(acc0) && RequiredFields([]) == [];
    InlineStep(acc0, fields[0], Int32Node);
    FoldSnoc([], fields[0], acc0);
    assert [] + [fields[0]] == fields[..1];
    RefStep(acc1, fields[1], a);
    FoldSnoc(fields[..1], fields[1], acc1);
    assert fields[..1] + [fields[1]] == fields;
    assert RequiredFields(fields) == [first, second];
    var acc2 := Accumulated(
      map[first := Int32Node, second := Ref(DefinitionPointer(TypeName(inner)))],
      map[TypeName(inner) := a.node] + a.definitions);
    PlainStructStep(name, fields, acc2);
  }

  /** `struct WowSoTest { outer: i32, inner: InnerWowSoTest }` with
      `struct InnerWowSoTest { payload: i32 }`: the outer struct refers to
      the inner one by `$ref`, and the inner struct's object node is the one
      definition. */
  lemma NestedStructSchema(name: string, outer: string, inner: string, innerName: string, payload: string)
    requires innerName != "Option"
    ensures BuildSchema(Struct(name, PlainStruct, [
      Field(outer, I32),
      Field(inner, Struct(innerName, PlainStruct, [Field(payload, I32)]))])) == Ok(Schema(
      Draft07,
      name,
      TypeNode(Object, None, Some([outer, inner]), Present(map[
        outer := Int32Node,
        inner := Ref(DefinitionPointer(innerName))]), None, None),
      map[innerName := TypeNode(Object, None, Some([payload]), Present(map[payload := Int32Node]), None, None)]))
  {
    StructOfOneIntStruct(name, outer, inner, innerName, payload);
  }

  /** A struct whose second field is a one-field struct, as the middle
      struct of the double-nested test is: the second field refers to the
      inner struct, whose object node is the one definition. */
  lemma StructOfOneIntStruct(name: string, first: string, second: string, innerName: string, innerField: string)
    requires innerName != "Option"
    ensures Analyze(Struct(name, PlainStruct, [
      Field(first, I32),
      Field(second, Struct(innerName, PlainStruct, [Field(innerField, I32)]))])) == Ok(Analysis(
      TypeNode(Object, None, Some([first, second]), Present(map[
        first := Int32Node,
        second := Ref(DefinitionPointer(innerName))]), None, None),
      map[innerName := TypeNode(Object, None, Some([innerField]), Present(map[innerField := Int32Node]), None, None)]))
  {
    OneIntFieldStruct(innerName, innerField);
    var innerNode := TypeNode(Object, None, Some([innerField]), Present(map[innerField := Int32Node]), None, None);
    IntThenStructField(name, first, second, Struct(innerName, PlainStruct, [Field(innerField, I32)]), Analysis(innerNode, map[]));
    assert map[innerName := innerNode] + map[] == map[innerName := innerNode];
  }

  /** `struct WowSoTest { outer: i32, inner: InnerWowSoTest }` with
      `struct InnerWowSoTest { payload: i32, subinner: InnerInnerWowSoTest }`
      and `struct InnerInnerWowSoTest { payload2: i32 }`: the outer struct
      refers to the middle struct only, while the middle struct's own `$ref`
      target is hoisted into the root's definitions too. */
  lemma DoubleNestedStructSchema(name: string, outer: string, inner: string, middleName: string,
                                 payload: string, subinner: string, innerName: string, payload2: string)
    requires middleName != "Option" && innerName != "Option"
    ensures BuildSchema(Struct(name, PlainStruct, [
      Field(outer, I32),
      Field(inner, Struct(middleName, PlainStruct, [
        Field(payload, I32),
        Field(subinner, Struct(innerName, PlainStruct, [Field(payload2, I32)]))]))])) == Ok(Schema(
      Draft07,
      name,
      TypeNode(Object, None, Some([outer, inner]), Present(map[
        outer := Int32Node,
        inner := Ref(DefinitionPointer(middleName))]), None, None),
      map[
        middleName := TypeNode(Object, None, Some([payload, subinner]), Present(map[
          payload := Int32Node,
          subinner := Ref(DefinitionPointer(innerName))]), None, None),
        innerName := TypeNode(Object, None, Some([payload2]), Present(map[
          payload2 := Int32Node]), None, None)]))
  {
    var middle := Struct(middleName, PlainStruct, [
      Field(payload, I32),
      Field(subinner, Struct(innerName, PlainStruct, [Field(payload2, I32)]))]);
    var innerNode := TypeNode(Object, None, Some([payload2]), Present(map[payload2 := Int32Node]), None, None);
    var middleNode := TypeNode(Object, None, Some([payload, subinner]), Present(map[
      payload := Int32Node,
      subinner := Ref(DefinitionPointer(innerName))]), None, None);
    StructOfOneIntStruct(middleName, payload, subinner, innerName, payload2);
    IntThenStructField(name, outer, inner, middle, Analysis(middleNode, map[innerName := innerNode]));
    assert map[middleName := middleNode] + map[innerName := innerNode]
      == map[middleName := middleNode, innerName := innerNode];
  }
}
