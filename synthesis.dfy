/** The member synthesis policy of `generateBuilder`: for each record
    component, which builder members are generated, with which parameters,
    null checks, backing-store class and presence-bit code; then the `from`
    steps, the getter and clear policies and the `build` arguments. Members
    are described by their meaning, not by their Java text. */
module Synthesis {
  import opened Constants
  import opened Wrappers
  import opened TypeAnalyzer
  import opened CollectionHelper
  import opened TypeNameBuilder
  import opened PresenceBitmap

  /** The four field shapes, tested in the processor's order: collection
      first, then map; the rest get a plain setter. */
  datatype Shape = CollectionShape | MapShape | PrimitiveShape | ReferenceShape

  function ShapeOf(c: Component): Shape
  {
    if IsCollection(c) then CollectionShape
    else if IsMap(c) then MapShape
    else if IsPrimitive(c) then PrimitiveShape
    else ReferenceShape
  }

  /** ASCII upper-casing of one character. */
  function UpperAscii(ch: char): char
  {
    if 'a' <= ch <= 'z' then (ch as int - 32) as char else ch
  }

  /** ASCII lower-casing of one character. */
  function LowerAscii(ch: char): char
  {
    if 'A' <= ch <= 'Z' then (ch as int + 32) as char else ch
  }

  /** `capitalize`: the first character upper-cased, the empty string unchanged. */
  function Capitalize(s: string): string
  {
    if |s| == 0 then s else [UpperAscii(s[0])] + s[1..]
  }

  /** The read-only view `Collections.unmodifiable*` a getter or `build` wraps with. */
  datatype View = UnmodifiableList | UnmodifiableSet | UnmodifiableMap

  /** What a getter returns. */
  datatype Access =
    | ReturnRaw                            // return this.x
    | RequireNonNull                       // return requireNonNull(this.x, ...)
    | RequireNonNullThenView(view: View)   // requireNonNull(this.x, ...); return view(this.x)
    | NullOrView(view: View)               // return this.x != null ? view(this.x) : null

  /** What a clear method stores. */
  datatype Reset = ResetToZero(literal: string) | ResetToNull

  /** One statement of `from(source)`. */
  datatype FromStep =
    | SetAlways(callee: string)        // builder.setX(source.x())
    | SetIfNonNull(callee: string)     // if (source.x() != null) builder.setX(source.x())
    | AddAllIfNonNull(callee: string)  // if (source.x() != null) builder.addAllX(source.x())
    | PutAllIfNonNull(callee: string)  // if (source.x() != null) builder.putAllX(source.x())

  /** One constructor argument of `build()`. */
  datatype BuildArg = PassRaw | NullOrViewArg(view: View)

  /** A method parameter: name, type, and parameter (not type) annotations. */
  datatype Param = Param(name: string, typ: TypeName, annotations: seq<string>)

  /** A generated builder member. `addAll` and `putAll` always check their
      argument for null, so they carry no flag for it. */
  datatype Member =
    | PrivateConstructor
    | OfMethod
    | FromMethod(steps: seq<FromStep>)
    | Setter(field: nat, name: string, param: Param, checksNull: bool, mark: BitCode)
    | Adder(field: nat, name: string, param: Param, checksNull: bool, store: string, mark: BitCode)
    | AllAdder(field: nat, name: string, param: Param, store: string, mark: BitCode)
    | Putter(field: nat, name: string, key: Param, value: Param, checksKey: bool, checksValue: bool,
             store: string, mark: BitCode)
    | AllPutter(field: nat, name: string, param: Param, store: string, mark: BitCode)
    | HasCheck(field: nat, name: string, test: BitCode)
    | Getter(field: nat, name: string, returnType: TypeName, access: Access)
    | Clearer(field: nat, name: string, reset: Reset, unmark: BitCode)
    | BuildMethod(args: seq<BuildArg>)

  /** A private field of the builder. */
  datatype FieldDecl = FieldDecl(name: string, typ: TypeName)

  /** The generated builder class: name, fields, the name and representation
      of the presence-mask field, members. */
  datatype BuilderClass = BuilderClass(name: string, fields: seq<FieldDecl>, maskField: string, mask: Representation,
                                       members: seq<Member>)

  // The null-check decisions, shared by the member descriptions and the
  // runtime model of the generated builder.

  /** A setter checks its argument unless the field is nullable or primitive. */
  predicate SetterChecksNull(c: Component)
  {
    !IsNullable(c) && !IsPrimitive(c)
  }

  /** `add` checks its item unless the element type is nullable. */
  predicate AdderChecksItem(c: Component)
  {
    !IsTypeNullable(TypeArgument(c.typ, 0))
  }

  /** `put` checks its key unless the key type is nullable. */
  predicate PutterChecksKey(c: Component)
  {
    !IsTypeNullable(TypeArgument(c.typ, 0))
  }

  /** `put` checks its value unless the value type is nullable. */
  predicate PutterChecksValue(c: Component)
  {
    !IsTypeNullable(TypeArgument(c.typ, 1))
  }

  // Per-component members.

  function SetterOf(c: Component, i: nat, n: nat): Member
  {
    Setter(i, SetPrefix + Capitalize(c.name), Param(c.name, Reconstruct(c.typ), []),
           SetterChecksNull(c), ProcessorSetBitStatement(i, n))
  }

  /** `add`: the item parameter is the element type's plain name, annotated as
      a parameter when the element type is nullable; it is checked unless that
      type is nullable. */
  function AdderOf(c: Component, i: nat, n: nat, concreteAware: bool): Member
  {
    var element := TypeArgument(c.typ, 0);
    Adder(i, AddPrefix + Capitalize(c.name),
          Param("item", Plain(element), if IsTypeNullable(element) then [NullableAnnotationFromType(element)] else []),
          AdderChecksItem(c), CollectionImplClass(c.typ, concreteAware), ProcessorSetBitStatement(i, n))
  }

  function AllAdderOf(c: Component, i: nat, n: nat, concreteAware: bool): Member
  {
    var element := TypeArgument(c.typ, 0);
    AllAdder(i, AddAllPrefix + Capitalize(c.name),
             Param("items", TypeName("java.lang.Iterable", [Reconstruct(element)], []), []),
             CollectionImplClass(c.typ, concreteAware), ProcessorSetBitStatement(i, n))
  }

  function PutterOf(c: Component, i: nat, n: nat, concreteAware: bool): Member
  {
    var key := TypeArgument(c.typ, 0);
    var value := TypeArgument(c.typ, 1);
    Putter(i, PutPrefix + Capitalize(c.name), Param("key", Reconstruct(key), []), Param("value", Reconstruct(value), []),
           PutterChecksKey(c), PutterChecksValue(c), MapImplClass(c.typ, concreteAware), ProcessorSetBitStatement(i, n))
  }

  function AllPutterOf(c: Component, i: nat, n: nat, concreteAware: bool): Member
  {
    var key := TypeArgument(c.typ, 0);
    var value := TypeArgument(c.typ, 1);
    AllPutter(i, PutAllPrefix + Capitalize(c.name),
              Param("map", TypeName(MapName, [Reconstruct(key), Reconstruct(value)], []), []),
              MapImplClass(c.typ, concreteAware), ProcessorSetBitStatement(i, n))
  }

  /** The loop body at lines 156-167: adders for a collection, putters for a
      map, a setter otherwise. */
  function MutatorsOf(c: Component, i: nat, n: nat, concreteAware: bool): (r: seq<Member>)
    ensures 1 <= |r| <= 2
    ensures forall k :: 0 <= k < |r| ==> BelongsTo(r[k], i)
  {
    match ShapeOf(c)
    case CollectionShape => [AdderOf(c, i, n, concreteAware), AllAdderOf(c, i, n, concreteAware)]
    case MapShape => [PutterOf(c, i, n, concreteAware), AllPutterOf(c, i, n, concreteAware)]
    case _ => [SetterOf(c, i, n)]
  }

  function HasOf(c: Component, i: nat, n: nat): Member
  {
    HasCheck(i, HasPrefix + Capitalize(c.name), ProcessorCheckBitExpression(i, n))
  }

  /** The read-only view for a collection or map component. */
  function ViewOf(c: Component, concreteAware: bool): View
  {
    if IsCollection(c) then
      (if ExposesSet(c.typ, concreteAware) then UnmodifiableSet else UnmodifiableList)
    else UnmodifiableMap
  }

  /** A container whose builder store is handed out as it is: a concrete
      collection or map when the tables are concrete-aware. */
  predicate PassesStoreThrough(c: Component, concreteAware: bool)
  {
    concreteAware &&
    ((IsCollection(c) && IsConcreteCollectionType(c.typ)) || (!IsCollection(c) && IsMap(c) && IsConcreteMapType(c.typ)))
  }

  /** `generateGetterMethod`. */
  function AccessOf(c: Component, concreteAware: bool): Access
  {
    if IsCollection(c) || IsMap(c) then
      if PassesStoreThrough(c, concreteAware) then
        (if IsNullable(c) then ReturnRaw else RequireNonNull)
      else if IsNullable(c) then NullOrView(ViewOf(c, concreteAware))
      else RequireNonNullThenView(ViewOf(c, concreteAware))
    else if IsPrimitive(c) || IsNullable(c) then ReturnRaw
    else RequireNonNull
  }

  function GetterOf(c: Component, i: nat, concreteAware: bool): Member
  {
    Getter(i, GetPrefix + Capitalize(c.name), FieldType(c, concreteAware), AccessOf(c, concreteAware))
  }

  /** `generateClearMethod`: a primitive is reset to its zero literal. */
  function ResetOf(c: Component): Reset
  {
    if IsPrimitive(c) then ResetToZero(PrimitiveZeroValue(c.typ).value) else ResetToNull
  }

  function ClearerOf(c: Component, i: nat, n: nat): Member
  {
    Clearer(i, ClearPrefix + Capitalize(c.name), ResetOf(c), ProcessorClearBitStatement(i, n))
  }

  /** One iteration of `generateFromMethod`. */
  function FromStepOf(c: Component): FromStep
  {
    if IsCollection(c) then AddAllIfNonNull(AddAllPrefix + Capitalize(c.name))
    else if IsMap(c) then PutAllIfNonNull(PutAllPrefix + Capitalize(c.name))
    else if IsPrimitive(c) then SetAlways(SetPrefix + Capitalize(c.name))
    else SetIfNonNull(SetPrefix + Capitalize(c.name))
  }

  /** One iteration of `generateBuildMethod`. */
  function BuildArgOf(c: Component, concreteAware: bool): BuildArg
  {
    if (IsCollection(c) || IsMap(c)) && !PassesStoreThrough(c, concreteAware) then NullOrViewArg(ViewOf(c, concreteAware))
    else PassRaw
  }

  const CollectionName: string := "java.util.Collection"
  const SequencedCollectionName: string := "java.util.SequencedCollection"

  /** The declared types a value of the view's interface can be passed as:
      `List` goes to List, SequencedCollection or Collection, `Set` to Set or
      Collection, and `Map` only to Map. */
  function ViewSupertypes(v: View): set<string>
  {
    match v
    case UnmodifiableList => {ListName, SequencedCollectionName, CollectionName}
    case UnmodifiableSet => {SetName, CollectionName}
    case UnmodifiableMap => {MapName}
  }

  /** The argument `build()` passes for component `c` type-checks against the
      record's constructor parameter: either the store itself goes through,
      or the component's declared type is a supertype of the view's interface.
      When this fails (an `ArrayList` component under the older tables, a
      `Queue` component under either), the generated builder does not compile. */
  predicate BuildArgAssignable(c: Component, concreteAware: bool)
  {
    match BuildArgOf(c, concreteAware)
    case PassRaw => true
    case NullOrViewArg(v) => c.typ.Declared? && c.typ.name in ViewSupertypes(v)
  }

  // Each loop of generateBuilder visits the components in order and appends
  // what one component contributes; `f(c, j)` is the contribution of
  // component `c` at index `j`.

  /** The contributions of the first k components, one element each. */
  function Each<T>(cs: seq<Component>, f: (Component, nat) -> T, k: nat): seq<T>
    requires k <= |cs|
  {
    if k == 0 then [] else Each(cs, f, k - 1) + [f(cs[k - 1], k - 1)]
  }

  /** The contributions of the first k components, a sequence each, concatenated. */
  function EachFlat<T>(cs: seq<Component>, f: (Component, nat) -> seq<T>, k: nat): seq<T>
    requires k <= |cs|
  {
    if k == 0 then [] else EachFlat(cs, f, k - 1) + f(cs[k - 1], k - 1)
  }

  /** `for (int i = 0; i < components.size(); i++) add(f(components.get(i), i))`. */
  method ForEachComponent<T>(cs: seq<Component>, f: (Component, nat) -> T) returns (r: seq<T>)
    ensures |r| == |cs|
    ensures forall j :: 0 <= j < |cs| ==> r[j] == f(cs[j], j)
    ensures r == Each(cs, f, |cs|)
  {
    r := [];
    var k := 0;
    while k < |cs|
      invariant k <= |cs|
      invariant r == Each(cs, f, k)
      invariant |r| == k && forall j :: 0 <= j < k ==> r[j] == f(cs[j], j)
    {
      r := r + [f(cs[k], k)];
      k := k + 1;
    }
  }

  /** The same loop where one component contributes several members. */
  method ForEachComponentFlat<T>(cs: seq<Component>, f: (Component, nat) -> seq<T>) returns (r: seq<T>)
    ensures r == EachFlat(cs, f, |cs|)
  {
    r := [];
    var k := 0;
    while k < |cs|
      invariant k <= |cs|
      invariant r == EachFlat(cs, f, k)
    {
      r := r + f(cs[k], k);
      k := k + 1;
    }
  }

  // The per-component contribution of each loop.

  function FieldFn(concreteAware: bool): (Component, nat) -> FieldDecl
  {
    (c: Component, j: nat) => FieldDecl(c.name, BuilderFieldDeclType(c, concreteAware))
  }

  function FromFn(): (Component, nat) -> FromStep
  {
    (c: Component, j: nat) => FromStepOf(c)
  }

  function MutatorFn(n: nat, concreteAware: bool): (Component, nat) -> seq<Member>
  {
    (c: Component, j: nat) => MutatorsOf(c, j, n, concreteAware)
  }

  function HasFn(n: nat): (Component, nat) -> Member
  {
    (c: Component, j: nat) => HasOf(c, j, n)
  }

  function GetterFn(concreteAware: bool): (Component, nat) -> Member
  {
    (c: Component, j: nat) => GetterOf(c, j, concreteAware)
  }

  function ClearerFn(n: nat): (Component, nat) -> Member
  {
    (c: Component, j: nat) => ClearerOf(c, j, n)
  }

  function BuildArgFn(concreteAware: bool): (Component, nat) -> BuildArg
  {
    (c: Component, j: nat) => BuildArgOf(c, concreteAware)
  }

  /** The members in the order `generateBuilder` adds them. */
  function Members(cs: seq<Component>, concreteAware: bool): seq<Member>
  {
    var n := |cs|;
    [PrivateConstructor, OfMethod, FromMethod(Each(cs, FromFn(), n))]
      + EachFlat(cs, MutatorFn(n, concreteAware), n)
      + Each(cs, HasFn(n), n)
      + Each(cs, GetterFn(concreteAware), n)
      + Each(cs, ClearerFn(n), n)
      + [BuildMethod(Each(cs, BuildArgFn(concreteAware), n))]
  }

  /** The whole generated class for a record named `recordName`. */
  function Builder(recordName: string, cs: seq<Component>, concreteAware: bool): BuilderClass
  {
    BuilderClass(recordName + BuilderSuffix, Each(cs, FieldFn(concreteAware), |cs|), PresenceMaskField, PlanMask(|cs|),
                 Members(cs, concreteAware))
  }

  // The generators.

  /** `generateFromMethod`: one step per component, in order. */
  method GenerateFromMethod(cs: seq<Component>) returns (m: Member)
    ensures m.FromMethod? && |m.steps| == |cs|
    ensures forall j :: 0 <= j < |cs| ==> m.steps[j] == FromStepOf(cs[j])
    ensures m == FromMethod(Each(cs, FromFn(), |cs|))
  {
    var steps := ForEachComponent(cs, FromFn());
    m := FromMethod(steps);
  }

  /** `generateBuildMethod`: one constructor argument per component, in order. */
  method GenerateBuildMethod(cs: seq<Component>, concreteAware: bool) returns (m: Member)
    ensures m.BuildMethod? && |m.args| == |cs|
    ensures forall j :: 0 <= j < |cs| ==> m.args[j] == BuildArgOf(cs[j], concreteAware)
    ensures m == BuildMethod(Each(cs, BuildArgFn(concreteAware), |cs|))
  {
    var args := ForEachComponent(cs, BuildArgFn(concreteAware));
    m := BuildMethod(args);
  }

  /** `generateBuilder`: fields, the mask declaration, `of`, `from`, the
      mutators, has, getters and clear methods, then `build`. */
  method GenerateBuilder(recordName: string, cs: seq<Component>, concreteAware: bool) returns (b: BuilderClass)
    ensures b == Builder(recordName, cs, concreteAware)
  {
    var n := |cs|;
    var fields := ForEachComponent(cs, FieldFn(concreteAware));
    var from := GenerateFromMethod(cs);
    var mutators := ForEachComponentFlat(cs, MutatorFn(n, concreteAware));
    var hases := ForEachComponent(cs, HasFn(n));
    var getters := ForEachComponent(cs, GetterFn(concreteAware));
    var clearers := ForEachComponent(cs, ClearerFn(n));
    var build := GenerateBuildMethod(cs, concreteAware);
    b := BuilderClass(recordName + BuilderSuffix, fields, PresenceMaskField, PlanMask(n),
                      [PrivateConstructor, OfMethod, from] + mutators + hases + getters + clearers + [build]);
  }

  // Properties of the synthesis policy.

  /** The field a member belongs to: its index, or -1 for the private
      constructor, `of`, `from` and `build`. */
  function OwnerOf(m: Member): int
  {
    match m
    case PrivateConstructor => -1
    case OfMethod => -1
    case FromMethod(_) => -1
    case BuildMethod(_) => -1
    case _ => m.field
  }

  predicate BelongsTo(m: Member, i: nat)
  {
    OwnerOf(m) == i
  }

  // Selection by owner is stated for any element type and any owner
  // function, so that the proofs below never split on the kinds of member.

  /** The elements of `ms` whose owner is `i`, in order. */
  function Owned<T>(ms: seq<T>, owner: T -> int, i: int): seq<T>
  {
    if |ms| == 0 then []
    else Owned(ms[..|ms| - 1], owner, i) + (if owner(ms[|ms| - 1]) == i then [ms[|ms| - 1]] else [])
  }

  /** The members that belong to field `i`, in order. */
  function ForField(ms: seq<Member>, i: nat): seq<Member>
  {
    Owned(ms, OwnerOf, i)
  }

  lemma {:induction false} OwnedAppend<T>(a: seq<T>, b: seq<T>, owner: T -> int, i: int)
    ensures Owned(a + b, owner, i) == Owned(a, owner, i) + Owned(b, owner, i)
    decreases |b|
  {
    if |b| == 0 {
      assert a + b == a;
    } else {
      var b' := b[..|b| - 1];
      assert (a + b)[..|a + b| - 1] == a + b';
      OwnedAppend(a, b', owner, i);
    }
  }

  /** Every element of `ms` has owner `j`. */
  predicate AllOwned<T>(ms: seq<T>, owner: T -> int, j: int)
  {
    forall k :: 0 <= k < |ms| ==> owner(ms[k]) == j
  }

  /** Every member of `ms` belongs to field `j`. */
  predicate AllBelong(ms: seq<Member>, j: nat)
  {
    AllOwned(ms, OwnerOf, j)
  }

  lemma {:induction false} OwnedAll<T>(ms: seq<T>, owner: T -> int, i: int)
    requires AllOwned(ms, owner, i)
    ensures Owned(ms, owner, i) == ms
    decreases |ms|
  {
    if |ms| > 0 {
      OwnedAll(ms[..|ms| - 1], owner, i);
    }
  }

  lemma {:induction false} OwnedNone<T>(ms: seq<T>, owner: T -> int, i: int)
    requires forall k :: 0 <= k < |ms| ==> owner(ms[k]) != i
    ensures Owned(ms, owner, i) == []
    decreases |ms|
  {
    if |ms| > 0 {
      OwnedNone(ms[..|ms| - 1], owner, i);
    }
  }

  lemma OwnedSingle<T>(x: T, owner: T -> int, i: int)
    ensures Owned([x], owner, i) == if owner(x) == i then [x] else []
  {
    assert [x][..0] == [];
  }

  /** Appending elements that all have owner `j` extends owner `j`'s
      selection by them and leaves every other owner's unchanged. */
  lemma {:induction false} OwnedAppendOwned<T>(prev: seq<T>, last: seq<T>, owner: T -> int, i: int, j: int)
    requires AllOwned(last, owner, j)
    ensures Owned(prev + last, owner, i) == Owned(prev, owner, i) + (if i == j then last else [])
  {
    OwnedAppend(prev, last, owner, i);
    if i == j {
      OwnedAll(last, owner, i);
    } else {
      OwnedNone(last, owner, i);
    }
  }

  /** In a loop whose contributions are owned by their own index, owner `i`
      selects exactly component i's contribution. */
  lemma {:induction false} OwnedEach<T>(cs: seq<Component>, f: (Component, nat) -> T, owner: T -> int, k: nat, i: nat)
    requires k <= |cs|
    requires forall c, j: nat :: owner(f(c, j)) == j
    ensures Owned(Each(cs, f, k), owner, i) == if i < k then [f(cs[i], i)] else []
  {
    if k > 0 {
      var prev := Each(cs, f, k - 1);
      var x := f(cs[k - 1], k - 1);
      OwnedEach(cs, f, owner, k - 1, i);
      OwnedAppend(prev, [x], owner, i);
      OwnedSingle(x, owner, i);
      if i == k - 1 {
        assert Owned(prev, owner, i) == [];
        assert Owned([x], owner, i) == [x];
      } else {
        assert Owned([x], owner, i) == [];
        assert Owned(prev, owner, i) + [] == Owned(prev, owner, i);
      }
    }
  }

  lemma {:induction false} OwnedEachFlat<T>(cs: seq<Component>, f: (Component, nat) -> seq<T>, owner: T -> int, k: nat, i: nat)
    requires k <= |cs|
    requires forall c, j: nat :: AllOwned(f(c, j), owner, j)
    ensures Owned(EachFlat(cs, f, k), owner, i) == if i < k then f(cs[i], i) else []
  {
    if k > 0 {
      var prev := EachFlat(cs, f, k - 1);
      var last := f(cs[k - 1], k - 1);
      OwnedEachFlat(cs, f, owner, k - 1, i);
      OwnedAppendOwned(prev, last, owner, i, k - 1);
      if i == k - 1 {
        assert Owned(prev, owner, i) == [];
        assert Owned(prev, owner, i) + last == last;
      } else if i < k - 1 {
        assert Owned(prev, owner, i) == f(cs[i], i);
      } else {
        assert Owned(prev, owner, i) == [];
      }
    }
  }

  /** The members of one field, in the order they appear in the class. */
  function FieldMembers(c: Component, i: nat, n: nat, concreteAware: bool): seq<Member>
  {
    MutatorsOf(c, i, n, concreteAware) + [HasOf(c, i, n), GetterOf(c, i, concreteAware), ClearerOf(c, i, n)]
  }

  lemma ContributionsBelong(n: nat, concreteAware: bool)
    ensures forall c, j :: AllBelong(MutatorFn(n, concreteAware)(c, j), j)
    ensures forall c, j :: BelongsTo(HasFn(n)(c, j), j)
    ensures forall c, j :: BelongsTo(GetterFn(concreteAware)(c, j), j)
    ensures forall c, j :: BelongsTo(ClearerFn(n)(c, j), j)
  {
  }

  lemma AppendThree<T>(m: seq<T>, h: T, g: T, c: T)
    ensures m + [h] + [g] + [c] + [] == m + [h, g, c]
  {
  }

  /** The layout of `generateBuilder` read for one owner: elements outside
      the loops have no field as owner, and each loop contributes component
      i's part. */
  lemma {:induction false} OwnedLayout<T>(cs: seq<Component>, head: seq<T>, tail: seq<T>, owner: T -> int,
                                          fm: (Component, nat) -> seq<T>, fh: (Component, nat) -> T,
                                          fg: (Component, nat) -> T, fc: (Component, nat) -> T, i: nat)
    requires i < |cs|
    requires forall k :: 0 <= k < |head| ==> owner(head[k]) != i
    requires forall k :: 0 <= k < |tail| ==> owner(tail[k]) != i
    requires forall c, j: nat :: AllOwned(fm(c, j), owner, j)
    requires forall c, j: nat :: owner(fh(c, j)) == j
    requires forall c, j: nat :: owner(fg(c, j)) == j
    requires forall c, j: nat :: owner(fc(c, j)) == j
    ensures Owned(head + EachFlat(cs, fm, |cs|) + Each(cs, fh, |cs|) + Each(cs, fg, |cs|) + Each(cs, fc, |cs|) + tail, owner, i)
            == fm(cs[i], i) + [fh(cs[i], i), fg(cs[i], i), fc(cs[i], i)]
  {
    var n := |cs|;
    var mu, ha, ge, cl := EachFlat(cs, fm, n), Each(cs, fh, n), Each(cs, fg, n), Each(cs, fc, n);
    var m, h, g, c := fm(cs[i], i), fh(cs[i], i), fg(cs[i], i), fc(cs[i], i);
    OwnedNone(head, owner, i);
    OwnedEachFlat(cs, fm, owner, n, i);
    OwnedAppend(head, mu, owner, i);
    assert Owned(head + mu, owner, i) == m;
    OwnedEach(cs, fh, owner, n, i);
    OwnedAppend(head + mu, ha, owner, i);
    assert Owned(head + mu + ha, owner, i) == m + [h];
    OwnedEach(cs, fg, owner, n, i);
    OwnedAppend(head + mu + ha, ge, owner, i);
    assert Owned(head + mu + ha + ge, owner, i) == m + [h] + [g];
    OwnedEach(cs, fc, owner, n, i);
    OwnedAppend(head + mu + ha + ge, cl, owner, i);
    assert Owned(head + mu + ha + ge + cl, owner, i) == m + [h] + [g] + [c];
    OwnedNone(tail, owner, i);
    OwnedAppend(head + mu + ha + ge + cl, tail, owner, i);
    AppendThree(m, h, g, c);
  }

  /** The same layout read for an owner past the last component: it selects nothing. */
  lemma {:induction false} OwnedPastEnd<T>(cs: seq<Component>, head: seq<T>, tail: seq<T>, owner: T -> int,
                                           fm: (Component, nat) -> seq<T>, fh: (Component, nat) -> T,
                                           fg: (Component, nat) -> T, fc: (Component, nat) -> T, i: nat)
    requires i >= |cs|
    requires forall k :: 0 <= k < |head| ==> owner(head[k]) != i
    requires forall k :: 0 <= k < |tail| ==> owner(tail[k]) != i
    requires forall c, j: nat :: AllOwned(fm(c, j), owner, j)
    requires forall c, j: nat :: owner(fh(c, j)) == j
    requires forall c, j: nat :: owner(fg(c, j)) == j
    requires forall c, j: nat :: owner(fc(c, j)) == j
    ensures Owned(head + EachFlat(cs, fm, |cs|) + Each(cs, fh, |cs|) + Each(cs, fg, |cs|) + Each(cs, fc, |cs|) + tail, owner, i)
            == []
  {
    var n := |cs|;
    var mu, ha, ge, cl := EachFlat(cs, fm, n), Each(cs, fh, n), Each(cs, fg, n), Each(cs, fc, n);
    OwnedNone(head, owner, i);
    OwnedEachFlat(cs, fm, owner, n, i);
    OwnedAppend(head, mu, owner, i);
    OwnedEach(cs, fh, owner, n, i);
    OwnedAppend(head + mu, ha, owner, i);
    OwnedEach(cs, fg, owner, n, i);
    OwnedAppend(head + mu + ha, ge, owner, i);
    OwnedEach(cs, fc, owner, n, i);
    OwnedAppend(head + mu + ha + ge, cl, owner, i);
    OwnedNone(tail, owner, i);
    OwnedAppend(head + mu + ha + ge + cl, tail, owner, i);
  }

  /** `MembersOfField` with each loop's contribution left as the loop's function. */
  lemma {:induction false} MembersOfFieldByLoop(cs: seq<Component>, concreteAware: bool, i: nat)
    requires i < |cs|
    ensures ForField(Members(cs, concreteAware), i) ==
              MutatorFn(|cs|, concreteAware)(cs[i], i) +
              [HasFn(|cs|)(cs[i], i), GetterFn(concreteAware)(cs[i], i), ClearerFn(|cs|)(cs[i], i)]
  {
    var n := |cs|;
    var head: seq<Member> := [PrivateConstructor, OfMethod, FromMethod(Each(cs, FromFn(), n))];
    var tail: seq<Member> := [BuildMethod(Each(cs, BuildArgFn(concreteAware), n))];
    ContributionsBelong(n, concreteAware);
    OwnedLayout(cs, head, tail, OwnerOf, MutatorFn(n, concreteAware), HasFn(n), GetterFn(concreteAware), ClearerFn(n), i);
  }

  /** No member belongs to a field index past the end. */
  lemma {:induction false} MembersPastEnd(cs: seq<Component>, concreteAware: bool, i: nat)
    requires i >= |cs|
    ensures ForField(Members(cs, concreteAware), i) == []
  {
    var n := |cs|;
    var head: seq<Member> := [PrivateConstructor, OfMethod, FromMethod(Each(cs, FromFn(), n))];
    var tail: seq<Member> := [BuildMethod(Each(cs, BuildArgFn(concreteAware), n))];
    ContributionsBelong(n, concreteAware);
    OwnedPastEnd(cs, head, tail, OwnerOf, MutatorFn(n, concreteAware), HasFn(n), GetterFn(concreteAware), ClearerFn(n), i);
  }

  /** Each field owns exactly its mutators (add and addAll for a collection,
      put and putAll for a map, set otherwise), then one has, one get and one
      clear; a field index past the end owns nothing, and the private
      constructor, `of`, `from` and `build` belong to no field. */
  lemma {:induction false} MembersOfField(cs: seq<Component>, concreteAware: bool, i: nat)
    ensures ForField(Members(cs, concreteAware), i) ==
              if i < |cs| then FieldMembers(cs[i], i, |cs|, concreteAware) else []
  {
    if i < |cs| {
      MembersOfFieldByLoop(cs, concreteAware, i);
    } else {
      MembersPastEnd(cs, concreteAware, i);
    }
  }

  /** The mutator kinds per shape: add and addAll exactly for collections
      (even a type also assignable to Map), put and putAll exactly for
      non-collection maps, one setter exactly for everything else. */
  lemma MutatorKinds(c: Component, i: nat, n: nat, concreteAware: bool)
    ensures var ms := MutatorsOf(c, i, n, concreteAware);
            (IsCollection(c) <==> |ms| == 2 && ms[0].Adder? && ms[1].AllAdder?) &&
            (!IsCollection(c) && IsMap(c) <==> |ms| == 2 && ms[0].Putter? && ms[1].AllPutter?) &&
            (!IsCollection(c) && !IsMap(c) <==> |ms| == 1 && ms[0].Setter?)
  {
  }

  function NameOf(m: Member): string
  {
    match m
    case PrivateConstructor => "<init>"
    case OfMethod => "of"
    case FromMethod(_) => "from"
    case BuildMethod(_) => "build"
    case _ => m.name
  }

  lemma SameSuffix(p: string, q: string, x: string)
    requires p + x == q + x
    ensures p == q
  {
    assert |p| == |q|;
    assert p == (p + x)[..|p|];
    assert q == (q + x)[..|q|];
  }

  /** The prefixes of a field's mutator names. */
  function MutatorPrefixes(c: Component): seq<string>
  {
    match ShapeOf(c)
    case CollectionShape => [AddPrefix, AddAllPrefix]
    case MapShape => [PutPrefix, PutAllPrefix]
    case _ => [SetPrefix]
  }

  /** The prefixes of a field's member names, in member order. */
  function FieldPrefixes(c: Component): seq<string>
  {
    MutatorPrefixes(c) + [HasPrefix, GetPrefix, ClearPrefix]
  }

  lemma MutatorNames(c: Component, i: nat, n: nat, concreteAware: bool)
    ensures var ms := MutatorsOf(c, i, n, concreteAware);
            |ms| == |MutatorPrefixes(c)| &&
            forall k :: 0 <= k < |ms| ==> NameOf(ms[k]) == MutatorPrefixes(c)[k] + Capitalize(c.name)
  {
  }

  lemma NamesAppend(a: seq<Member>, b: seq<Member>, pa: seq<string>, pb: seq<string>, x: string)
    requires |a| == |pa| && forall k :: 0 <= k < |a| ==> NameOf(a[k]) == pa[k] + x
    requires |b| == |pb| && forall k :: 0 <= k < |b| ==> NameOf(b[k]) == pb[k] + x
    ensures |a + b| == |pa + pb|
    ensures forall k :: 0 <= k < |a + b| ==> NameOf((a + b)[k]) == (pa + pb)[k] + x
  {
  }

  /** Every member name of a field is its prefix followed by `capitalize(name)`. */
  lemma {:induction false} FieldMemberNames(c: Component, i: nat, n: nat, concreteAware: bool)
    ensures var ms := FieldMembers(c, i, n, concreteAware);
            |ms| == |FieldPrefixes(c)| &&
            forall k :: 0 <= k < |ms| ==> NameOf(ms[k]) == FieldPrefixes(c)[k] + Capitalize(c.name)
  {
    var x := Capitalize(c.name);
    var rest := [HasOf(c, i, n), GetterOf(c, i, concreteAware), ClearerOf(c, i, n)];
    MutatorNames(c, i, n, concreteAware);
    assert NameOf(rest[0]) == HasPrefix + x && NameOf(rest[1]) == GetPrefix + x && NameOf(rest[2]) == ClearPrefix + x;
    NamesAppend(MutatorsOf(c, i, n, concreteAware), rest, MutatorPrefixes(c), [HasPrefix, GetPrefix, ClearPrefix], x);
  }

  lemma FieldPrefixesDistinct(c: Component)
    ensures forall a, b :: 0 <= a < b < |FieldPrefixes(c)| ==> FieldPrefixes(c)[a] != FieldPrefixes(c)[b]
  {
  }

  /** A field's members have pairwise distinct names: prefix plus
      `capitalize(name)` with distinct prefixes. */
  lemma {:induction false} FieldMemberNamesDistinct(c: Component, i: nat, n: nat, concreteAware: bool)
    ensures var ms := FieldMembers(c, i, n, concreteAware);
            forall a, b :: 0 <= a < b < |ms| ==> NameOf(ms[a]) != NameOf(ms[b])
  {
    var ms := FieldMembers(c, i, n, concreteAware);
    var ps := FieldPrefixes(c);
    var x := Capitalize(c.name);
    FieldMemberNames(c, i, n, concreteAware);
    FieldPrefixesDistinct(c);
    forall a, b | 0 <= a < b < |ms| ensures NameOf(ms[a]) != NameOf(ms[b]) {
      if NameOf(ms[a]) == NameOf(ms[b]) {
        SameSuffix(ps[a], ps[b], x);
        assert false;
      }
    }
  }

  /** All of a field's members address the same presence bit: mutators OR it
      in, `has` tests it, `clear` AND-NOTs it, and it is the bit the helper
      generators give for that field. */
  lemma {:induction false} FieldMembersShareBit(c: Component, i: nat, n: nat, concreteAware: bool)
    ensures var t := GenerateSetBitStatement(i, n).target;
            (forall k :: 0 <= k < |MutatorsOf(c, i, n, concreteAware)| ==>
               MutatorsOf(c, i, n, concreteAware)[k].mark == OrAssign(t)) &&
            HasOf(c, i, n).test == TestNonZero(t) &&
            ClearerOf(c, i, n).unmark == AndNotAssign(t)
  {
    GeneratorsAgree(i, n);
  }

  /** Components declared with an interface type always compile: the view
      `build()` wraps them in is their own declared interface, or `List` for
      `Collection`. */
  lemma InterfaceComponentsAssignable(c: Component, concreteAware: bool)
    requires c.typ.Declared?
    requires (IsCollection(c) && c.typ.name in {ListName, SetName, CollectionName}) ||
             (!IsCollection(c) && IsMap(c) && c.typ.name == MapName)
    ensures BuildArgAssignable(c, concreteAware)
  {
  }

  /** A component declared `ArrayList<String>` is passed through by the
      concrete-aware tables, while the older tables wrap it in an
      unmodifiable `List`, which an `ArrayList` parameter does not accept. */
  lemma ConcreteComponentNeedsConcreteTables()
    ensures var c := Component("items", Declared(ArrayListName, [Declared("java.lang.String", [], [])], []), [], true, false);
            BuildArgAssignable(c, true) && !BuildArgAssignable(c, false)
  {
    var c := Component("items", Declared(ArrayListName, [Declared("java.lang.String", [], [])], []), [], true, false);
    assert IsConcreteCollectionType(c.typ);
    assert !ExposesSet(c.typ, false);
  }

  // The four policy lemmas below (SetterNullCheck, PutterNullChecks,
  // GetterPolicy, ClearPolicy) read the member descriptions back in terms of
  // the classification predicates. They unfold definitions and add no proof;
  // what the emitted members do at run time is stated by the contracts of
  // Runtime.Builder.SetField and Put, Runtime.ReadPolicy, ReadNeverThrows
  // and ClearedIsInitial.

  /** The setter's null check, read back: it checks iff the field is neither
      nullable nor primitive. */
  lemma SetterNullCheck(c: Component, i: nat, n: nat)
    ensures SetterOf(c, i, n).checksNull <==> !IsNullable(c) && !IsPrimitive(c)
    ensures IsPrimitive(c) || IsNullable(c) ==> !SetterOf(c, i, n).checksNull
  {
  }

  /** `add` checks its item iff the element type carries no nullable marker,
      and then its parameter carries no annotation; a nullable element type's
      marker moves to the parameter. */
  lemma AdderNullCheck(c: Component, i: nat, n: nat, concreteAware: bool)
    ensures var m := AdderOf(c, i, n, concreteAware);
            (m.checksNull <==> !IsTypeNullable(TypeArgument(c.typ, 0))) &&
            (m.checksNull <==> m.param.annotations == []) &&
            m.param.typ.annotations == []
  {
  }

  /** The putter's null checks, read back: key and value are each checked by
      their own type argument's nullability. */
  lemma PutterNullChecks(c: Component, i: nat, n: nat, concreteAware: bool)
    ensures var m := PutterOf(c, i, n, concreteAware);
            (m.checksKey <==> !IsTypeNullable(TypeArgument(c.typ, 0))) &&
            (m.checksValue <==> !IsTypeNullable(TypeArgument(c.typ, 1)))
  {
  }

  /** The getter's access shape, read back by shape and nullability. */
  lemma GetterPolicy(c: Component, concreteAware: bool)
    ensures !IsCollection(c) && !IsMap(c) ==>
              (AccessOf(c, concreteAware) == ReturnRaw <==> IsPrimitive(c) || IsNullable(c))
    ensures !IsCollection(c) && !IsMap(c) && !IsPrimitive(c) && !IsNullable(c) ==> AccessOf(c, concreteAware) == RequireNonNull
    ensures (IsCollection(c) || IsMap(c)) && !PassesStoreThrough(c, concreteAware) ==>
              (AccessOf(c, concreteAware).NullOrView? <==> IsNullable(c)) &&
              (AccessOf(c, concreteAware).RequireNonNullThenView? <==> !IsNullable(c))
    ensures !concreteAware ==> !PassesStoreThrough(c, concreteAware)
  {
  }

  /** The view matches the interface: a set interface gets `unmodifiableSet`,
      a list interface `unmodifiableList`, a map `unmodifiableMap`; a getter
      and `build` use the same view. */
  lemma {:induction false} ViewPolicy(c: Component, concreteAware: bool)
    requires IsCollection(c) || IsMap(c)
    ensures IsCollection(c) ==> (ViewOf(c, concreteAware) == UnmodifiableSet <==> CollectionInterface(c.typ, concreteAware) == SetName)
    ensures !IsCollection(c) ==> ViewOf(c, concreteAware) == UnmodifiableMap
    ensures !PassesStoreThrough(c, concreteAware) ==>
              BuildArgOf(c, concreteAware) == NullOrViewArg(ViewOf(c, concreteAware)) &&
              AccessOf(c, concreteAware).view == ViewOf(c, concreteAware)
  {
    ExposesSetIff(c.typ, concreteAware);
  }

  /** The clear method's reset value, read back: the kind's zero literal for
      a primitive, null for anything else. */
  lemma ClearPolicy(c: Component)
    ensures ResetOf(c).ResetToZero? <==> IsPrimitive(c)
    ensures IsPrimitive(c) ==> Success(ResetOf(c).literal) == PrimitiveZeroValue(c.typ)
  {
  }

  /** `from` sets a primitive unconditionally and guards every other field by
      a null test, calling the member that the field actually has. */
  lemma {:induction false} FromPolicy(c: Component, i: nat, n: nat, concreteAware: bool)
    ensures FromStepOf(c).SetAlways? <==> IsPrimitive(c)
    ensures FromStepOf(c).callee == NameOf(MutatorsOf(c, i, n, concreteAware)[|MutatorsOf(c, i, n, concreteAware)| - 1])
  {
    if IsPrimitive(c) {
      PrimitiveNeverContainer(c);
    }
  }

  /** `capitalize` keeps the length and the tail, upper-cases only the first
      character, leaves the empty string unchanged, and is idempotent. */
  lemma CapitalizeSpec(s: string)
    ensures |Capitalize(s)| == |s|
    ensures s == [] ==> Capitalize(s) == []
    ensures |s| > 0 ==> Capitalize(s)[0] == UpperAscii(s[0]) && Capitalize(s)[1..] == s[1..]
    ensures Capitalize(Capitalize(s)) == Capitalize(s)
  {
  }

  /** A name starting with a lower-case ASCII letter is recovered from its
      capitalised form by lower-casing the first character back. */
  lemma CapitalizeInvertible(s: string)
    requires |s| > 0 && 'a' <= s[0] <= 'z'
    ensures 'A' <= Capitalize(s)[0] <= 'Z'
    ensures [LowerAscii(Capitalize(s)[0])] + Capitalize(s)[1..] == s
  {
  }
}
