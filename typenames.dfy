/** Type signatures for the generated members: the plain JavaPoet name of a
    type, its reconstruction with nullable markers kept at each position, the
    choice of marker, and the builder field types of collection and map
    components (concrete-aware in `TypeNameBuilder`, interface-only in the
    processor's `getBuilderFieldType`). */
module TypeNameBuilder {
  import opened Constants
  import opened Wrappers
  import opened TypeAnalyzer
  import opened CollectionHelper

  /** A JavaPoet `TypeName`: a raw head (class name or keyword), its type
      arguments, and the qualified names of the annotations attached to it. */
  datatype TypeName = TypeName(head: string, args: seq<TypeName>, annotations: seq<string>)

  const ObjectName: string := "java.lang.Object"

  /** The `java.lang.Object` type `getTypeArgument` falls back to. */
  const ObjectType: JType := Declared(ObjectName, [], [])

  /** The Java keyword of a primitive kind. */
  function Keyword(k: PrimitiveKind): string
  {
    match k
    case Boolean => "boolean"
    case Byte => "byte"
    case Short => "short"
    case Int => "int"
    case Long => "long"
    case Char => "char"
    case Float => "float"
    case Double => "double"
  }

  /** The raw head of a type: keyword, qualified class name, or spelling. */
  function Head(t: JType): string
  {
    match t
    case Primitive(k, _) => Keyword(k)
    case Declared(n, _, _) => n
    case Other(_, sp, _) => sp
  }

  /** `TypeName.get(type)`: the same head and arguments with no annotations. */
  function Plain(t: JType): TypeName
    decreases t
  {
    match t
    case Declared(n, args, _) => TypeName(n, seq(|args|, k requires 0 <= k < |args| => Plain(args[k])), [])
    case _ => TypeName(Head(t), [], [])
  }

  /** Removes every annotation at every position. */
  function Erase(n: TypeName): TypeName
    decreases n
  {
    TypeName(n.head, seq(|n.args|, k requires 0 <= k < |n.args| => Erase(n.args[k])), [])
  }

  /** First-match search of `getNullableAnnotationFromType` and of each loop
      of `getNullableAnnotation`: the first accepted name, if any. */
  function FirstNullable(annotations: seq<string>): (r: Option<string>)
    ensures r.Some? <==> AnyNullable(annotations)
    ensures r.Some? ==> exists k :: 0 <= k < |annotations| && annotations[k] == r.value &&
                          IsNullableAnnotation(r.value) &&
                          forall j :: 0 <= j < k ==> !IsNullableAnnotation(annotations[j])
  {
    if |annotations| == 0 then None
    else if IsNullableAnnotation(annotations[0]) then Some(annotations[0])
    else
      var r := FirstNullable(annotations[1..]);
      assert forall k :: 0 <= k < |annotations| - 1 ==> annotations[1..][k] == annotations[k + 1];
      r
  }

  /** `getNullableAnnotationFromType`: the first accepted type annotation,
      else `org.jspecify.annotations.Nullable`. */
  function NullableAnnotationFromType(t: JType): string
  {
    match FirstNullable(t.annotations)
    case Some(q) => q
    case None => JspecifyNullable
  }

  /** `getNullableAnnotation`: the first accepted element annotation, else the
      first accepted type annotation, else `org.jspecify.annotations.Nullable`. */
  function NullableAnnotation(c: Component): string
  {
    match FirstNullable(c.elementAnnotations)
    case Some(q) => q
    case None => NullableAnnotationFromType(c.typ)
  }

  /** `getTypeArgument`: argument `index` of a declared type, else `java.lang.Object`. */
  function TypeArgument(t: JType, index: nat): JType
  {
    if t.Declared? && |t.args| > index then t.args[index] else ObjectType
  }

  /** The marker list `annotated(...)` leaves at a position of type `t`. */
  function MarkerOf(t: JType): seq<string>
  {
    if IsTypeNullable(t) then [NullableAnnotationFromType(t)] else []
  }

  /** `getTypeNameWithAnnotations`: a declared type with arguments is rebuilt
      from its raw class and its recursively rebuilt arguments; any other type
      is `TypeName.get`; then a nullable type gets its marker. */
  function Reconstruct(t: JType): TypeName
    decreases t
  {
    var base :=
      if t.Declared? && |t.args| > 0 then
        TypeName(t.name, seq(|t.args|, k requires 0 <= k < |t.args| => Reconstruct(t.args[k])), [])
      else Plain(t);
    TypeName(base.head, base.args, base.annotations + MarkerOf(t))
  }

  /** `buildCollectionFieldType`: the declared concrete class or the helper's
      interface, over the rebuilt element type, with an outer marker when the
      component is nullable. */
  function HelperCollectionFieldType(c: Component): TypeName
  {
    var head := if IsConcreteCollectionType(c.typ) then c.typ.name else HelperCollectionInterface(c.typ);
    TypeName(head, [Reconstruct(TypeArgument(c.typ, 0))], if IsNullable(c) then [NullableAnnotation(c)] else [])
  }

  /** `buildMapFieldType`: the declared concrete class or `Map`, over the
      rebuilt key and value types, with an outer marker when nullable. */
  function HelperMapFieldType(c: Component): TypeName
  {
    var head := if IsConcreteMapType(c.typ) then c.typ.name else MapName;
    TypeName(head, [Reconstruct(TypeArgument(c.typ, 0)), Reconstruct(TypeArgument(c.typ, 1))],
             if IsNullable(c) then [NullableAnnotation(c)] else [])
  }

  /** `TypeNameBuilder.getFieldType`. */
  function HelperFieldType(c: Component): TypeName
  {
    if IsCollection(c) then HelperCollectionFieldType(c)
    else if IsMap(c) then HelperMapFieldType(c)
    else Reconstruct(c.typ)
  }

  /** The processor's `getBuilderFieldType`: always the interface head and
      never an outer marker. */
  function ProcessorFieldType(c: Component): TypeName
  {
    if IsCollection(c) then
      TypeName(ProcessorCollectionInterface(c.typ), [Reconstruct(TypeArgument(c.typ, 0))], [])
    else if IsMap(c) then
      TypeName(MapName, [Reconstruct(TypeArgument(c.typ, 0)), Reconstruct(TypeArgument(c.typ, 1))], [])
    else Reconstruct(c.typ)
  }

  function FieldType(c: Component, concreteAware: bool): TypeName
  {
    if concreteAware then HelperFieldType(c) else ProcessorFieldType(c)
  }

  /** The declared type of the builder's private field: the field type, plus
      `org.jspecify.annotations.Nullable` when the component is neither
      primitive nor nullable. */
  function BuilderFieldDeclType(c: Component, concreteAware: bool): TypeName
  {
    var t := FieldType(c, concreteAware);
    if !IsPrimitive(c) && !IsNullable(c) then TypeName(t.head, t.args, t.annotations + [JspecifyNullable]) else t
  }

  // Positions inside a type tree, addressed by a path of argument indices.

  function SubType(t: JType, path: seq<nat>): Option<JType>
    decreases |path|
  {
    if path == [] then Some(t)
    else if t.Declared? && path[0] < |t.args| then SubType(t.args[path[0]], path[1..])
    else None
  }

  function SubName(n: TypeName, path: seq<nat>): Option<TypeName>
    decreases |path|
  {
    if path == [] then Some(n)
    else if path[0] < |n.args| then SubName(n.args[path[0]], path[1..])
    else None
  }

  /** Annotations do not change the raw head or the arguments:
      reconstruction is `TypeName.get` plus markers. */
  lemma {:induction false} ReconstructErases(t: JType)
    ensures Erase(Reconstruct(t)) == Plain(t)
    decreases t
  {
    match t
    case Declared(n, args, _) =>
      forall k | 0 <= k < |args| ensures Erase(Reconstruct(args[k])) == Plain(args[k]) {
        ReconstructErases(args[k]);
      }
      if |args| > 0 {
        assert Erase(Reconstruct(t)).args == Plain(t).args;
      } else {
        assert Erase(Reconstruct(t)).args == [] == Plain(t).args;
      }
    case _ =>
  }

  /** Every position of the type has a matching position of its
      reconstruction with the same head, and it carries a marker exactly when
      that position of the type is nullable; positions the type lacks are
      lacking in the reconstruction too. */
  lemma {:induction false} ReconstructAt(t: JType, path: seq<nat>)
    ensures SubType(t, path).Some? <==> SubName(Reconstruct(t), path).Some?
    ensures SubType(t, path).Some? ==>
              SubName(Reconstruct(t), path).value.head == Head(SubType(t, path).value) &&
              SubName(Reconstruct(t), path).value.annotations == MarkerOf(SubType(t, path).value)
    decreases |path|
  {
    if path != [] {
      var r := Reconstruct(t);
      if t.Declared? && path[0] < |t.args| {
        assert r.args[path[0]] == Reconstruct(t.args[path[0]]);
        ReconstructAt(t.args[path[0]], path[1..]);
      } else {
        assert |r.args| == (if t.Declared? then |t.args| else 0);
      }
    }
  }

  /** `Map<String, List<@Nullable String>>`: only the innermost `String` is marked. */
  lemma NestedMarkerExample()
    ensures var str := Declared("java.lang.String", [], []);
            var markedStr := Declared("java.lang.String", [], [JspecifyNullable]);
            var t := Declared("java.util.Map", [str, Declared("java.util.List", [markedStr], [])], []);
            Reconstruct(t) ==
              TypeName("java.util.Map",
                       [TypeName("java.lang.String", [], []),
                        TypeName("java.util.List", [TypeName("java.lang.String", [], [JspecifyNullable])], [])],
                       [])
  {
    var str := Declared("java.lang.String", [], []);
    var markedStr := Declared("java.lang.String", [], [JspecifyNullable]);
    var list := Declared("java.util.List", [markedStr], []);
    assert IsTypeNullable(markedStr) by { assert IsNullableAnnotation(markedStr.annotations[0]); }
    assert FirstNullable(markedStr.annotations) == Some(JspecifyNullable);
    assert Reconstruct(str) == TypeName("java.lang.String", [], []);
    assert Reconstruct(markedStr) == TypeName("java.lang.String", [], [JspecifyNullable]);
    assert Reconstruct(list).args == [Reconstruct(markedStr)];
    var t := Declared("java.util.Map", [str, list], []);
    assert Reconstruct(t).args == [Reconstruct(str), Reconstruct(list)];
  }

  /** `getTypeArgument` returns the argument when it exists and `Object` otherwise. */
  lemma TypeArgumentSpec(t: JType, index: nat)
    ensures SubType(t, [index]).Some? ==> TypeArgument(t, index) == SubType(t, [index]).value
    ensures SubType(t, [index]).None? ==> TypeArgument(t, index) == ObjectType
  {
    assert [index][1..] == [];
    if t.Declared? && |t.args| > index {
      assert SubType(t, [index]) == SubType(t.args[index], []) == Some(t.args[index]);
    }
  }

  /** Marker spelling precedence: the first accepted element annotation wins,
      then the first accepted type annotation, then the jspecify default;
      whichever it is, the marker is one of the seven accepted names. */
  lemma {:induction false} MarkerSpelling(c: Component)
    ensures AnyNullable(c.elementAnnotations) ==> NullableAnnotation(c) in c.elementAnnotations
    ensures AnyNullable(c.elementAnnotations) ==> NullableAnnotation(c) == FirstNullable(c.elementAnnotations).value
    ensures !AnyNullable(c.elementAnnotations) && IsTypeNullable(c.typ) ==> NullableAnnotation(c) in c.typ.annotations
    ensures !AnyNullable(c.elementAnnotations) && IsTypeNullable(c.typ) ==>
              NullableAnnotation(c) == FirstNullable(c.typ.annotations).value
    ensures !IsNullable(c) ==> NullableAnnotation(c) == JspecifyNullable
    ensures IsNullableAnnotation(NullableAnnotation(c))
  {
  }

  /** The helper's collection field head is the declared class exactly when
      it is on the concrete allow-list, otherwise `List` or `Set`; the one
      argument is the rebuilt element type; there is one outer marker exactly
      when the component is nullable. */
  lemma {:induction false} HelperCollectionFieldShape(c: Component)
    requires IsCollection(c)
    ensures HelperFieldType(c).head in ConcreteCollectionNames <==> IsConcreteCollectionType(c.typ)
    ensures IsConcreteCollectionType(c.typ) ==> HelperFieldType(c).head == c.typ.name
    ensures !IsConcreteCollectionType(c.typ) ==> HelperFieldType(c).head in {SetName, ListName}
    ensures HelperFieldType(c).args == [Reconstruct(TypeArgument(c.typ, 0))]
    ensures |HelperFieldType(c).annotations| == (if IsNullable(c) then 1 else 0)
    ensures IsNullable(c) ==> IsNullableAnnotation(HelperFieldType(c).annotations[0])
  {
    HelperInterfaceSetIff(c.typ);
    MarkerSpelling(c);
  }

  /** The helper's map field head is the declared class exactly when it is on
      the concrete allow-list, otherwise `Map`; key and value are rebuilt; one
      outer marker exactly when the component is nullable. */
  lemma {:induction false} HelperMapFieldShape(c: Component)
    requires !IsCollection(c) && IsMap(c)
    ensures HelperFieldType(c).head in ConcreteMapNames <==> IsConcreteMapType(c.typ)
    ensures IsConcreteMapType(c.typ) ==> HelperFieldType(c).head == c.typ.name
    ensures !IsConcreteMapType(c.typ) ==> HelperFieldType(c).head == MapName
    ensures HelperFieldType(c).args == [Reconstruct(TypeArgument(c.typ, 0)), Reconstruct(TypeArgument(c.typ, 1))]
    ensures |HelperFieldType(c).annotations| == (if IsNullable(c) then 1 else 0)
    ensures IsNullable(c) ==> IsNullableAnnotation(HelperFieldType(c).annotations[0])
  {
    MarkerSpelling(c);
  }

  /** The processor's collection and map field types never keep a concrete
      head and never carry an outer marker. */
  lemma ProcessorFieldShape(c: Component)
    requires IsCollection(c) || IsMap(c)
    ensures ProcessorFieldType(c).head in {SetName, ListName, MapName}
    ensures ProcessorFieldType(c).annotations == []
  {
  }

  /** The builder field of a non-primitive, non-nullable component carries
      the jspecify marker at the top; a nullable component's builder field
      carries an outer marker only where its field type already does. */
  lemma BuilderFieldMarker(c: Component, concreteAware: bool)
    ensures !IsPrimitive(c) && !IsNullable(c) ==>
              BuilderFieldDeclType(c, concreteAware).annotations ==
                FieldType(c, concreteAware).annotations + [JspecifyNullable]
    ensures IsPrimitive(c) || IsNullable(c) ==> BuilderFieldDeclType(c, concreteAware) == FieldType(c, concreteAware)
  {
  }
}
