/** The processor's view of a record component and its type, and the
    classification predicates over it: nullability from annotations, the
    primitive / collection / map split, the two concrete-container allow-lists
    and the primitive zero-value table. The processor's private copies of
    these predicates are identical to the `TypeAnalyzer` ones, so each is
    defined once here. */
module TypeAnalyzer {
  import opened Constants
  import opened Wrappers

  /** The eight primitive `TypeKind`s. */
  datatype PrimitiveKind = Boolean | Byte | Short | Int | Long | Char | Float | Double

  /** A `TypeMirror`: a primitive, a declared class or interface with its type
      arguments, or any other kind (array, type variable, wildcard), each with
      the qualified names of the type annotations it carries. */
  datatype JType =
    | Primitive(kind: PrimitiveKind, annotations: seq<string>)
    | Declared(name: string, args: seq<JType>, annotations: seq<string>)
    | Other(kindName: string, spelling: string, annotations: seq<string>)

  /** A `RecordComponentElement`: its simple name, its type, the qualified
      names of its element (declaration) annotations, and whether the erasure
      of its type is assignable to `java.util.Collection` and to
      `java.util.Map`. The two assignability answers come from the compiler's
      type utilities and are inputs here. */
  datatype Component = Component(
    name: string,
    typ: JType,
    elementAnnotations: seq<string>,
    collectionAssignable: bool,
    mapAssignable: bool)

  /** `isNullableAnnotation`: one of the seven accepted qualified names. */
  predicate IsNullableAnnotation(qualifiedName: string)
  {
    || qualifiedName == JspecifyNullable
    || qualifiedName == JavaxNullable
    || qualifiedName == JakartaNullable
    || qualifiedName == JetbrainsNullable
    || qualifiedName == AndroidxNullable
    || qualifiedName == CheckerFrameworkNullable
    || qualifiedName == FindbugsNullable
  }

  /** `stream().anyMatch(this::isNullableAnnotation)`. */
  predicate AnyNullable(annotations: seq<string>)
  {
    exists k :: 0 <= k < |annotations| && IsNullableAnnotation(annotations[k])
  }

  /** `isTypeNullable`: some type annotation of `t` is a nullable one. */
  predicate IsTypeNullable(t: JType)
  {
    AnyNullable(t.annotations)
  }

  /** `isNullable`: some element annotation or some type annotation of the
      component is a nullable one. */
  predicate IsNullable(c: Component)
  {
    AnyNullable(c.elementAnnotations) || IsTypeNullable(c.typ)
  }

  /** `isPrimitive`. */
  predicate IsPrimitive(c: Component)
  {
    c.typ.Primitive?
  }

  /** `isCollection`: a declared type whose erasure is assignable to `Collection`. */
  predicate IsCollection(c: Component)
  {
    c.typ.Declared? && c.collectionAssignable
  }

  /** `isMap`: a declared type whose erasure is assignable to `Map`. */
  predicate IsMap(c: Component)
  {
    c.typ.Declared? && c.mapAssignable
  }

  const ArrayListName: string := "java.util.ArrayList"
  const HashSetName: string := "java.util.HashSet"
  const LinkedHashSetName: string := "java.util.LinkedHashSet"
  const TreeSetName: string := "java.util.TreeSet"
  const LinkedListName: string := "java.util.LinkedList"
  const ArrayDequeName: string := "java.util.ArrayDeque"
  const VectorName: string := "java.util.Vector"
  const StackName: string := "java.util.Stack"
  const CopyOnWriteArrayListName: string := "java.util.concurrent.CopyOnWriteArrayList"
  const CopyOnWriteArraySetName: string := "java.util.concurrent.CopyOnWriteArraySet"
  const ConcurrentSkipListSetName: string := "java.util.concurrent.ConcurrentSkipListSet"

  const HashMapName: string := "java.util.HashMap"
  const TreeMapName: string := "java.util.TreeMap"
  const LinkedHashMapName: string := "java.util.LinkedHashMap"
  const WeakHashMapName: string := "java.util.WeakHashMap"
  const IdentityHashMapName: string := "java.util.IdentityHashMap"
  const HashtableName: string := "java.util.Hashtable"
  const PropertiesName: string := "java.util.Properties"
  const ConcurrentHashMapName: string := "java.util.concurrent.ConcurrentHashMap"
  const ConcurrentSkipListMapName: string := "java.util.concurrent.ConcurrentSkipListMap"

  /** The allow-list of `isConcreteCollectionType`. */
  const ConcreteCollectionNames: set<string> :=
    {ArrayListName, HashSetName, LinkedHashSetName, TreeSetName, LinkedListName,
     ArrayDequeName, VectorName, StackName, CopyOnWriteArrayListName,
     CopyOnWriteArraySetName, ConcurrentSkipListSetName}

  /** The allow-list of `isConcreteMapType`. */
  const ConcreteMapNames: set<string> :=
    {HashMapName, TreeMapName, LinkedHashMapName, WeakHashMapName, IdentityHashMapName,
     HashtableName, PropertiesName, ConcurrentHashMapName, ConcurrentSkipListMapName}

  /** `isConcreteCollectionType`: a declared type named in the allow-list. */
  predicate IsConcreteCollectionType(t: JType)
  {
    t.Declared? && t.name in ConcreteCollectionNames
  }

  /** `isConcreteMapType`: a declared type named in the allow-list. */
  predicate IsConcreteMapType(t: JType)
  {
    t.Declared? && t.name in ConcreteMapNames
  }

  /** The `TypeKind` name the exception message prints. */
  function KindName(t: JType): string
  {
    match t
    case Primitive(k, _) =>
      (match k
       case Boolean => "BOOLEAN"
       case Byte => "BYTE"
       case Short => "SHORT"
       case Int => "INT"
       case Long => "LONG"
       case Char => "CHAR"
       case Float => "FLOAT"
       case Double => "DOUBLE")
    case Declared(_, _, _) => "DECLARED"
    case Other(kindName, _, _) => kindName
  }

  /** `getPrimitiveZeroValue`: the Java literal of the kind's zero, or
      `IllegalArgumentException` for a non-primitive type. */
  function PrimitiveZeroValue(t: JType): (r: Result<string>)
    ensures r.Success? <==> t.Primitive?
    ensures r.Failure? ==> r.error == IllegalArgument("Not a primitive type: " + KindName(t))
  {
    match t
    case Primitive(k, _) =>
      (match k
       case Boolean => Success("false")
       case Byte => Success("0")
       case Short => Success("0")
       case Int => Success("0")
       case Long => Success("0")
       case Char => Success("'\\0'")
       case Float => Success("0.0f")
       case Double => Success("0.0"))
    case _ => Failure(IllegalArgument("Not a primitive type: " + KindName(t)))
  }

  /** The accepted names are exactly the seven of `Constants`. */
  lemma NullableAnnotationExactly(q: string)
    ensures IsNullableAnnotation(q) <==> q in NullableAnnotationNames
    ensures |NullableAnnotationNames| == 7
  {
  }

  /** A type-level marker makes the component nullable ... */
  lemma TypeNullableImpliesNullable(c: Component)
    ensures IsTypeNullable(c.typ) ==> IsNullable(c)
  {
  }

  /** ... but not conversely: a jakarta declaration annotation alone makes a
      component nullable while its type carries no marker. */
  lemma {:induction false} NullableWithoutTypeMarker()
    ensures var c := Component("nickname", Declared("java.lang.String", [], []), [JakartaNullable], false, false);
            IsNullable(c) && !IsTypeNullable(c.typ)
  {
    var c := Component("nickname", Declared("java.lang.String", [], []), [JakartaNullable], false, false);
    assert IsNullableAnnotation(c.elementAnnotations[0]);
  }

  /** An annotation outside the seven never makes anything nullable, and
      a type whose annotations are all outside the seven is not type-nullable. */
  lemma {:induction false} ForeignAnnotationsIgnored(t: JType)
    requires forall k :: 0 <= k < |t.annotations| ==> t.annotations[k] !in NullableAnnotationNames
    ensures !IsTypeNullable(t)
  {
    if IsTypeNullable(t) {
      var k :| 0 <= k < |t.annotations| && IsNullableAnnotation(t.annotations[k]);
      NullableAnnotationExactly(t.annotations[k]);
    }
  }

  /** The collection allow-list has 11 names ... */
  lemma CollectionAllowListSize()
    ensures |ConcreteCollectionNames| == 11
  {
  }

  /** ... the map allow-list 9 ... */
  lemma MapAllowListSize()
    ensures |ConcreteMapNames| == 9
  {
  }

  /** ... and no name is on both. */
  lemma AllowListsDisjoint()
    ensures ConcreteCollectionNames !! ConcreteMapNames
  {
  }

  /** Concreteness and container kind are decided only for declared types. */
  lemma NonDeclaredNeverConcreteOrContainer(c: Component)
    requires !c.typ.Declared?
    ensures !IsConcreteCollectionType(c.typ) && !IsConcreteMapType(c.typ)
    ensures !IsCollection(c) && !IsMap(c)
  {
  }

  /** A primitive is never a collection or a map. */
  lemma PrimitiveNeverContainer(c: Component)
    requires IsPrimitive(c)
    ensures !IsCollection(c) && !IsMap(c)
  {
  }

  /** The zero-value table, read in both directions: each literal is produced
      by exactly the kinds listed for it. */
  lemma ZeroValueTable(t: JType)
    ensures PrimitiveZeroValue(t) == Success("false") <==> t.Primitive? && t.kind == Boolean
    ensures PrimitiveZeroValue(t) == Success("0") <==> t.Primitive? && t.kind in {Byte, Short, Int, Long}
    ensures PrimitiveZeroValue(t) == Success("'\\0'") <==> t.Primitive? && t.kind == Char
    ensures PrimitiveZeroValue(t) == Success("0.0f") <==> t.Primitive? && t.kind == Float
    ensures PrimitiveZeroValue(t) == Success("0.0") <==> t.Primitive? && t.kind == Double
  {
  }
}
