# record-builder: the builder synthesis engine in Dafny

This project models the core of the `record-builder` annotation processor.
For every Java record annotated `@RecordBuilder`, the processor emits a
mutable builder class named `<Record>Builder`. The model has two halves.

The synthesis half says which members are emitted, in what order, and with
which checks. It covers:

- the presence bitmap: an `int`, a `long` or a `long[]`, chosen from the
  field count, and the statements that set, clear and test one bit;
- the classification tables: nullable annotations, primitive, collection
  and map shapes, the concrete-container allow-lists, the
  name-to-implementation and name-to-interface lookups, and the primitive
  zero values;
- the reconstruction of annotated type signatures, which keeps each
  nullable marker at the position where it was written;
- the member policy of `generateBuilder`: the field `_presenceMask0_`, a
  private constructor, `of`, `from`, a setter or an adder/putter pair per
  field, then `has`, `get` and `clear` per field, then `build`.

The runtime half says what the emitted builder does. It is a Dafny class
holding one value per field and the presence mask, with methods for `of`,
`from`, `set`, `add`, `addAll`, `put`, `putAll` and `clear`, and functions
for `has`, `get` and `build`.

The processor carries its own older copies of the collection lookups and
of the field-type builder. Those copies do not call the concrete-aware
helper classes `CollectionHelper` and `TypeNameBuilder`:

- They know only `Set`/`HashSet` and `List`/`ArrayList`.
- They always create a `HashMap` for maps.
- They never keep a concrete container class as a field type's head.
- Their getters and `build()` always wrap collections and maps read-only.

Every function that depends on this difference takes a `concreteAware`
flag and uses one behaviour throughout:

- `false` is the processor as shipped.
- `true` uses the helper classes' tables and field types. It also lets a
  field declared with a concrete container class bypass the read-only
  wrapping in its getter and in `build()`. No shipped generator emits that
  bypass. It is modelled because the helper's field type keeps the concrete
  class as its head. A getter returning `ArrayList` could not return an
  unmodifiable `List` view, so without the bypass the helper's field types
  would not compile.

Files, one module each:

- `constants.dfy` (`Constants`): thresholds, annotation names, prefixes.
- `wrappers.dfy` (`Wrappers`): `Option`, `Result`, `Outcome` and the two
  Java exceptions the generated code throws.
- `bitmap.dfy` (`PresenceBitmap`): mask planning, bit addressing, the
  emitted bit code and what it does to a mask.
- `types.dfy` (`TypeAnalyzer`): components, types, classification.
- `collections.dfy` (`CollectionHelper`): the lookup tables, both versions.
- `typenames.dfy` (`TypeNameBuilder`): type-name reconstruction and field
  types.
- `synthesis.dfy` (`Synthesis`): member descriptions and `generateBuilder`.
- `runtime.dfy` (`Runtime`): the emitted builder at run time, and the
  `from(r).build()` round trip.

In the table, `RecordBuilderProcessor.java`, `PresenceBitmapHelper.java`,
`TypeAnalyzer.java`, `CollectionHelper.java`, `TypeNameBuilder.java` and
`Constants.java` are under `record-builder/src/main/java/recordbuilder/`.
The tests are under `record-builder/src/test/java/recordbuilder/`.

## Model

| member | source | states |
|---|---|---|
| Constants.ThresholdsOrdered | record-builder/src/main/java/recordbuilder/Constants.java:20-22 | 0 < int threshold (32) < long threshold (64) == bits per long |
| Constants.NullableNamesDistinct | record-builder/src/main/java/recordbuilder/Constants.java:11-17 | the seven accepted nullable annotation names are pairwise distinct |
| Constants.NullableNamesSimple | record-builder/src/main/java/recordbuilder/Constants.java:11-17 | every accepted name is a qualified name whose simple name is `Nullable` |
| Constants.PrefixesDistinct | record-builder/src/main/java/recordbuilder/Constants.java:28-31 | set/get/clear/has and the processor's add/addAll/put/putAll are eight distinct prefixes |
| PresenceBitmap.PlanMask | record-builder/src/main/java/recordbuilder/RecordBuilderProcessor.java:124-139 | the mask declaration chosen from the field count; its thresholds and the word count are stated by PlanMaskBoundaries |
| PresenceBitmap.GenerateSetBitStatement | record-builder/src/main/java/recordbuilder/PresenceBitmapHelper.java:24-38 | the OR-assignment that sets bit i; what it does to a mask is stated by TargetSetClear, TargetFrame and SetClearTest |
| PresenceBitmap.GenerateCheckBitExpression | record-builder/src/main/java/recordbuilder/PresenceBitmapHelper.java:47-63 | the non-zero test of bit i; GeneratorsAgree states it reads the bit the set statement writes |
| PresenceBitmap.GenerateClearBitStatement | record-builder/src/main/java/recordbuilder/PresenceBitmapHelper.java:72-86 | the AND-NOT assignment that clears bit i; its effect is stated by TargetSetClear and SetClearFrame |
| PresenceBitmap.ProcessorSetBitStatement | record-builder/src/main/java/recordbuilder/RecordBuilderProcessor.java:810-823 | the processor's own set-bit generator, the one its mutators call; GeneratorsAgree states it equals the helper's |
| PresenceBitmap.ProcessorCheckBitExpression | record-builder/src/main/java/recordbuilder/RecordBuilderProcessor.java:825-838 | the processor's own check-bit generator, the one `has` calls; GeneratorsAgree states it equals the helper's |
| PresenceBitmap.ProcessorClearBitStatement | record-builder/src/main/java/recordbuilder/RecordBuilderProcessor.java:840-853 | the processor's own clear-bit generator, the one `clear` calls; GeneratorsAgree states it equals the helper's |
| PresenceBitmap.PlanMaskBoundaries | record-builder/src/main/java/recordbuilder/RecordBuilderProcessor.java:124-139 | the mask is `int` iff n <= 32, `long` iff 33 <= n <= 64, `long[(n+63)/64]` iff n > 64; 32, 33, 64 and 65 land as stated |
| PresenceBitmap.GeneratorsAgree | record-builder/src/main/java/recordbuilder/RecordBuilderProcessor.java:810-853 | the set, clear and check generators address the same bit, and the processor's private generators equal the helper's |
| PresenceBitmap.BitIndexing | record-builder/src/main/java/recordbuilder/PresenceBitmapHelper.java:24-37 | for one word the bit index is the ordinal itself; for the array it is word i/64, offset i%64 |
| PresenceBitmap.TargetFits | record-builder/src/main/java/recordbuilder/PresenceBitmapHelper.java:24-37 | for i < n the emitted code fits the mask declared for n fields: an `int` shift on an `int`, a `long` shift on a `long`, a word index below the array length |
| PresenceBitmap.TargetInjective | record-builder/src/main/java/recordbuilder/PresenceBitmapHelper.java:33-36 | distinct ordinals below n address distinct bits |
| PresenceBitmap.InitialMaskClear | record-builder/src/main/java/recordbuilder/RecordBuilderProcessor.java:124-139 | the Java default of the declared mask has the declared shape and no bit set |
| PresenceBitmap.TargetSetClear | record-builder/src/main/java/recordbuilder/PresenceBitmapHelper.java:24-86 | after the OR-assignment of a bit its test is true, after the AND-NOT assignment it is false; both are idempotent |
| PresenceBitmap.TargetFrame | record-builder/src/main/java/recordbuilder/PresenceBitmapHelper.java:24-86 | an OR- or AND-NOT assignment of one bit leaves the test of every other bit unchanged |
| PresenceBitmap.ExecuteShaped | record-builder/src/main/java/recordbuilder/PresenceBitmapHelper.java:24-86 | emitted code that fits the mask keeps its declared shape |
| PresenceBitmap.SetClearTest | record-builder/src/main/java/recordbuilder/PresenceBitmapHelper.java:24-86 | setting field i makes `has` true, clearing makes it false, both keep the shape and are idempotent |
| PresenceBitmap.SetClearFrame | record-builder/src/main/java/recordbuilder/PresenceBitmapHelper.java:24-86 | setting or clearing field i leaves the presence of every other field j unchanged |
| PresenceBitmap.OtherWordsUnchanged | record-builder/src/main/java/recordbuilder/PresenceBitmapHelper.java:31-37 | on the array representation, set and clear of field i change no word other than i/64 |
| PresenceBitmap.SixtyFiveFields | record-builder/src/main/java/recordbuilder/RecordBuilderProcessor.java:133-138 | 65 fields use two words, and setting field 64 sets bit 0 of word 1 |
| TypeAnalyzer.IsNullableAnnotation | record-builder/src/main/java/recordbuilder/TypeAnalyzer.java:91-102 | membership in the seven accepted names; NullableAnnotationExactly states the equivalence |
| TypeAnalyzer.IsTypeNullable | record-builder/src/main/java/recordbuilder/TypeAnalyzer.java:83-85 | some type annotation is accepted; ForeignAnnotationsIgnored states the negative case |
| TypeAnalyzer.IsNullable | record-builder/src/main/java/recordbuilder/TypeAnalyzer.java:69-78 | an element or a type annotation is accepted; TypeNullableImpliesNullable and NullableWithoutTypeMarker state both directions |
| TypeAnalyzer.IsPrimitive | record-builder/src/main/java/recordbuilder/TypeAnalyzer.java:107-109 | the component's type has a primitive kind; PrimitiveNeverContainer states a primitive is never a collection or map |
| TypeAnalyzer.IsCollection | record-builder/src/main/java/recordbuilder/TypeAnalyzer.java:30-44 | a declared type assignable to `Collection`; PrimitiveNeverContainer and NonDeclaredNeverConcreteOrContainer state what it excludes |
| TypeAnalyzer.IsMap | record-builder/src/main/java/recordbuilder/TypeAnalyzer.java:49-63 | a declared type assignable to `Map`; the same two lemmas state what it excludes |
| TypeAnalyzer.IsConcreteCollectionType | record-builder/src/main/java/recordbuilder/TypeAnalyzer.java:115-134 | membership of a declared name in the 11-name list; CollectionAllowListSize and AllowListsDisjoint state the list |
| TypeAnalyzer.IsConcreteMapType | record-builder/src/main/java/recordbuilder/TypeAnalyzer.java:140-157 | membership of a declared name in the 9-name list; MapAllowListSize and AllowListsDisjoint state the list |
| TypeAnalyzer.PrimitiveZeroValue | record-builder/src/main/java/recordbuilder/TypeAnalyzer.java:164-174 | succeeds exactly for primitive types; otherwise the error is IllegalArgumentException "Not a primitive type: " + the kind |
| TypeAnalyzer.ZeroValueTable | record-builder/src/main/java/recordbuilder/TypeAnalyzer.java:164-174 | each zero literal is produced by exactly its kinds: false for boolean; 0 for byte, short, int and long; '\0' for char; 0.0f for float; 0.0 for double |
| TypeAnalyzer.NullableAnnotationExactly | record-builder/src/main/java/recordbuilder/TypeAnalyzer.java:91-102 | an annotation is accepted iff its name is one of the seven constants |
| TypeAnalyzer.TypeNullableImpliesNullable | record-builder/src/main/java/recordbuilder/TypeAnalyzer.java:69-85 | a nullable type annotation makes the component nullable |
| TypeAnalyzer.NullableWithoutTypeMarker | record-builder/src/main/java/recordbuilder/TypeAnalyzer.java:69-78 | the converse fails: a declaration annotation alone makes a component nullable while its type is not |
| TypeAnalyzer.ForeignAnnotationsIgnored | record-builder/src/main/java/recordbuilder/TypeAnalyzer.java:83-102 | a type whose annotations are all outside the seven is not type-nullable |
| TypeAnalyzer.CollectionAllowListSize | record-builder/src/main/java/recordbuilder/TypeAnalyzer.java:115-134 | the collection allow-list has exactly 11 names |
| TypeAnalyzer.MapAllowListSize | record-builder/src/main/java/recordbuilder/TypeAnalyzer.java:140-157 | the map allow-list has exactly 9 names |
| TypeAnalyzer.AllowListsDisjoint | record-builder/src/main/java/recordbuilder/TypeAnalyzer.java:115-157 | no name is on both allow-lists |
| TypeAnalyzer.NonDeclaredNeverConcreteOrContainer | record-builder/src/main/java/recordbuilder/TypeAnalyzer.java:30-63 | a non-declared type is never concrete, never a collection, never a map |
| TypeAnalyzer.PrimitiveNeverContainer | record-builder/src/main/java/recordbuilder/TypeAnalyzer.java:30-63 | a primitive component is neither a collection nor a map |
| CollectionHelper.HelperCollectionImplClass | record-builder/src/main/java/recordbuilder/CollectionHelper.java:45-69 | the helper's implementation lookup; ConcreteCollectionIsOwnImpl, CollectionImplDefaults and CollectionImplIsConcrete state its answers |
| CollectionHelper.HelperCollectionInterface | record-builder/src/main/java/recordbuilder/CollectionHelper.java:78-108 | the helper's interface lookup; HelperInterfaceSetIff and HelperTablesAgree state its answers |
| CollectionHelper.HelperMapImplClass | record-builder/src/main/java/recordbuilder/CollectionHelper.java:118-139 | the helper's map lookup; MapImplLookup states its answers |
| CollectionHelper.ProcessorCollectionImplClass | record-builder/src/main/java/recordbuilder/RecordBuilderProcessor.java:618-635 | the processor's copy: HashSet for Set and HashSet, else ArrayList, as ProcessorDefaults states |
| CollectionHelper.ProcessorCollectionInterface | record-builder/src/main/java/recordbuilder/RecordBuilderProcessor.java:637-654 | the processor's copy: Set for Set and HashSet, else List; ProcessorTablesAgree and ProcessorInterfaceRefinesHelper relate it to the others |
| CollectionHelper.ProcessorMapImplClass | record-builder/src/main/java/recordbuilder/RecordBuilderProcessor.java:395-398 | `put` and `putAll` of the processor always create a HashMap, as ProcessorDefaults states |
| CollectionHelper.ConcreteCollectionIsOwnImpl | record-builder/src/main/java/recordbuilder/CollectionHelper.java:45-69 | every concrete collection name is its own implementation class |
| CollectionHelper.CollectionImplDefaults | record-builder/src/main/java/recordbuilder/CollectionHelper.java:45-69 | `Set` gives HashSet; `List`, unlisted names and non-declared types give ArrayList |
| CollectionHelper.CollectionImplIsConcrete | record-builder/src/main/java/recordbuilder/CollectionHelper.java:45-69 | both implementation lookups are total and always answer a concrete collection name |
| CollectionHelper.HelperInterfaceSetIff | record-builder/src/main/java/recordbuilder/CollectionHelper.java:78-108 | the interface is `Set` for exactly the six set-like names and `List` for everything else |
| CollectionHelper.HelperTablesAgree | record-builder/src/main/java/recordbuilder/CollectionHelper.java:45-108 | the interface is `Set` iff the implementation class is one of the five set classes |
| CollectionHelper.ExposesSetIff | record-builder/src/main/java/recordbuilder/CollectionHelper.java:78-108 | the set-likeness test the getters use agrees with the interface lookup in both versions |
| CollectionHelper.ProcessorTablesAgree | record-builder/src/main/java/recordbuilder/RecordBuilderProcessor.java:618-654 | in the processor's copies, the interface is `Set` iff the implementation is HashSet |
| CollectionHelper.ProcessorInterfaceRefinesHelper | record-builder/src/main/java/recordbuilder/RecordBuilderProcessor.java:637-654 | a processor `Set` is a helper `Set`, but LinkedHashSet is `Set` for the helper and `List` for the processor |
| CollectionHelper.MapImplLookup | record-builder/src/main/java/recordbuilder/CollectionHelper.java:118-139 | each of the 9 concrete map names maps to itself; `Map`, unknown names and non-declared types give HashMap |
| CollectionHelper.ProcessorDefaults | record-builder/src/main/java/recordbuilder/RecordBuilderProcessor.java:618-635 | without `concreteAware`, maps are HashMap and collections are HashSet exactly for Set/HashSet, else ArrayList |
| TypeNameBuilder.NullableAnnotationFromType | record-builder/src/main/java/recordbuilder/TypeNameBuilder.java:173-182 | the first accepted type annotation, else jspecify's `Nullable`; MarkerSpelling states it |
| TypeNameBuilder.NullableAnnotation | record-builder/src/main/java/recordbuilder/TypeNameBuilder.java:151-168 | the first accepted element annotation, then the type's; MarkerSpelling states the order |
| TypeNameBuilder.TypeArgument | record-builder/src/main/java/recordbuilder/TypeNameBuilder.java:199-208 | argument k, or `Object` when there is none; TypeArgumentSpec states it |
| TypeNameBuilder.Reconstruct | record-builder/src/main/java/recordbuilder/TypeNameBuilder.java:115-145 | the annotated type name; ReconstructErases and ReconstructAt state its shape and marker placement |
| TypeNameBuilder.HelperCollectionFieldType | record-builder/src/main/java/recordbuilder/TypeNameBuilder.java:53-78 | the helper's collection field type; HelperCollectionFieldShape states its head, element and outer marker |
| TypeNameBuilder.HelperMapFieldType | record-builder/src/main/java/recordbuilder/TypeNameBuilder.java:83-109 | the helper's map field type; HelperMapFieldShape states its head, key, value and outer marker |
| TypeNameBuilder.HelperFieldType | record-builder/src/main/java/recordbuilder/TypeNameBuilder.java:37-48 | dispatch to the collection, map or plain field type; HelperCollectionFieldShape and HelperMapFieldShape state the container cases |
| TypeNameBuilder.ProcessorFieldType | record-builder/src/main/java/recordbuilder/RecordBuilderProcessor.java:198-218 | the processor's field type; ProcessorFieldShape states it |
| TypeNameBuilder.BuilderFieldDeclType | record-builder/src/main/java/recordbuilder/RecordBuilderProcessor.java:106-122 | the builder field's declared type; BuilderFieldMarker states when the marker is added |
| TypeNameBuilder.FirstNullable | record-builder/src/main/java/recordbuilder/TypeNameBuilder.java:151-182 | the search finds a name iff one is accepted, and the one it finds is the first accepted one |
| TypeNameBuilder.ReconstructErases | record-builder/src/main/java/recordbuilder/TypeNameBuilder.java:115-145 | with annotations removed, the reconstruction is the plain type name: same head, same number of arguments, in order |
| TypeNameBuilder.ReconstructAt | record-builder/src/main/java/recordbuilder/TypeNameBuilder.java:115-145 | every position of the type has a matching position in the reconstruction, which carries a marker iff that position is type-nullable, spelled as its first accepted annotation |
| TypeNameBuilder.NestedMarkerExample | record-builder/src/test/java/recordbuilder/Everything.java:57 | for `Map<String, List<@Nullable String>>` only the innermost `String` is marked |
| TypeNameBuilder.TypeArgumentSpec | record-builder/src/main/java/recordbuilder/TypeNameBuilder.java:199-208 | the k-th argument when it exists, `java.lang.Object` otherwise |
| TypeNameBuilder.MarkerSpelling | record-builder/src/main/java/recordbuilder/TypeNameBuilder.java:151-182 | the first accepted element annotation wins, then the first accepted type annotation, else jspecify's `Nullable`; the result is always accepted |
| TypeNameBuilder.HelperCollectionFieldShape | record-builder/src/main/java/recordbuilder/TypeNameBuilder.java:53-78 | the head is the declared class iff it is concrete, else `Set` or `List`; the element is reconstructed; exactly one outer marker iff the component is nullable |
| TypeNameBuilder.HelperMapFieldShape | record-builder/src/main/java/recordbuilder/TypeNameBuilder.java:83-109 | the head is the declared class iff it is a concrete map, else `Map`; key and value are reconstructed; exactly one outer marker iff nullable |
| TypeNameBuilder.ProcessorFieldShape | record-builder/src/main/java/recordbuilder/RecordBuilderProcessor.java:198-218 | the processor's container field types have an interface head and no outer marker |
| TypeNameBuilder.BuilderFieldMarker | record-builder/src/main/java/recordbuilder/RecordBuilderProcessor.java:106-122 | a non-primitive, non-nullable component's builder field gets jspecify's `Nullable` added; a primitive or nullable one keeps its field type |
| Synthesis.Capitalize | record-builder/src/main/java/recordbuilder/RecordBuilderProcessor.java:803-808 | the first character upper-cased; CapitalizeSpec and CapitalizeInvertible state it |
| Synthesis.ShapeOf | record-builder/src/main/java/recordbuilder/RecordBuilderProcessor.java:156-167 | collection tested first, then map, else scalar; MutatorKinds states which mutators each shape gets |
| Synthesis.SetterOf | record-builder/src/main/java/recordbuilder/RecordBuilderProcessor.java:265-297 | the `setX` description; SetterNullCheck, FieldMemberNames and FieldMembersShareBit state its check, name and bit |
| Synthesis.AdderOf | record-builder/src/main/java/recordbuilder/RecordBuilderProcessor.java:299-331 | the `addX` description; AdderNullCheck states its item check |
| Synthesis.AllAdderOf | record-builder/src/main/java/recordbuilder/RecordBuilderProcessor.java:333-363 | the `addAllX` description; FieldMemberNames and FieldMembersShareBit state its name and bit |
| Synthesis.PutterOf | record-builder/src/main/java/recordbuilder/RecordBuilderProcessor.java:365-407 | the `putX` description; PutterNullChecks states its key and value checks |
| Synthesis.AllPutterOf | record-builder/src/main/java/recordbuilder/RecordBuilderProcessor.java:409-437 | the `putAllX` description; FieldMemberNames and FieldMembersShareBit state its name and bit |
| Synthesis.HasOf | record-builder/src/main/java/recordbuilder/RecordBuilderProcessor.java:538-549 | the `hasX` description; FieldMembersShareBit states it tests bit i |
| Synthesis.AccessOf | record-builder/src/main/java/recordbuilder/RecordBuilderProcessor.java:485-530 | the getter's access shape; GetterPolicy states each case |
| Synthesis.ViewOf | record-builder/src/main/java/recordbuilder/RecordBuilderProcessor.java:485-521 | the `Collections.unmodifiable*` view; ViewPolicy states it is the set view iff the interface is `Set`, the map view for maps |
| Synthesis.GetterOf | record-builder/src/main/java/recordbuilder/RecordBuilderProcessor.java:475-536 | the `getX` description; GetterPolicy and ViewPolicy state its access |
| Synthesis.ResetOf | record-builder/src/main/java/recordbuilder/RecordBuilderProcessor.java:448-454 | what `clear` stores; ClearPolicy states it is the zero literal iff the field is primitive, else null |
| Synthesis.ClearerOf | record-builder/src/main/java/recordbuilder/RecordBuilderProcessor.java:439-461 | the `clearX` description; ClearPolicy states its reset value |
| Synthesis.FromStepOf | record-builder/src/main/java/recordbuilder/RecordBuilderProcessor.java:228-258 | one `from` statement; FromPolicy states when it is unconditional and which mutator it calls |
| Synthesis.BuildArgOf | record-builder/src/main/java/recordbuilder/RecordBuilderProcessor.java:570-589 | one `build()` argument; ViewPolicy states its view |
| Synthesis.BuildArgAssignable | record-builder/src/main/java/recordbuilder/RecordBuilderProcessor.java:570-589 | the `build()` argument type-checks: the store goes through, or the declared type is a supertype of the view's interface |
| Synthesis.InterfaceComponentsAssignable | record-builder/src/main/java/recordbuilder/RecordBuilderProcessor.java:570-589 | components declared `List`, `Set`, `Collection` or `Map` always get an argument that type-checks |
| Synthesis.ConcreteComponentNeedsConcreteTables | record-builder/src/main/java/recordbuilder/RecordBuilderProcessor.java:198-218 | an `ArrayList` component type-checks under the concrete-aware tables and not under the processor's own, which wrap it in a `List` view |
| Synthesis.Members | record-builder/src/main/java/recordbuilder/RecordBuilderProcessor.java:140-190 | the member list in emission order; MembersOfField and MembersPastEnd state which field owns which member |
| Synthesis.Builder | record-builder/src/main/java/recordbuilder/RecordBuilderProcessor.java:91-196 | the generated class: fields, the `_presenceMask0_` field, members; GenerateBuilder is proved to build it |
| Synthesis.MutatorsOf | record-builder/src/main/java/recordbuilder/RecordBuilderProcessor.java:156-167 | one or two mutators per field, all belonging to that field |
| Synthesis.MutatorKinds | record-builder/src/main/java/recordbuilder/RecordBuilderProcessor.java:156-167 | add+addAll iff a collection (tested first); put+putAll iff a non-collection map; a single setter iff neither |
| Synthesis.GenerateFromMethod | record-builder/src/main/java/recordbuilder/RecordBuilderProcessor.java:220-263 | one step per component, in order, each the policy's step for that component |
| Synthesis.GenerateBuildMethod | record-builder/src/main/java/recordbuilder/RecordBuilderProcessor.java:551-599 | one constructor argument per component, positionally, and no presence check |
| Synthesis.GenerateBuilder | record-builder/src/main/java/recordbuilder/RecordBuilderProcessor.java:91-196 | the loops build the class described by `Builder`: fields, the mask field, the private constructor, of, from, mutators, has, getters, clearers, build |
| Synthesis.MembersOfField | record-builder/src/main/java/recordbuilder/RecordBuilderProcessor.java:156-184 | field i < n owns exactly its mutators, one has, one get and one clear, in that order; no other field index owns a member |
| Synthesis.MembersPastEnd | record-builder/src/main/java/recordbuilder/RecordBuilderProcessor.java:91-196 | an index past the last component owns no member |
| Synthesis.FieldMemberNames | record-builder/src/main/java/recordbuilder/RecordBuilderProcessor.java:156-184 | each of a field's member names is its prefix followed by the capitalized field name |
| Synthesis.FieldMemberNamesDistinct | record-builder/src/main/java/recordbuilder/RecordBuilderProcessor.java:156-184 | the members of one field have pairwise distinct names |
| Synthesis.FieldMembersShareBit | record-builder/src/main/java/recordbuilder/RecordBuilderProcessor.java:265-549 | every mutator of field i sets bit i, `has` tests bit i, `clear` clears bit i |
| Synthesis.SetterNullCheck | record-builder/src/main/java/recordbuilder/RecordBuilderProcessor.java:283-287 | the setter checks for null iff the field is neither nullable nor primitive |
| Synthesis.AdderNullCheck | record-builder/src/main/java/recordbuilder/RecordBuilderProcessor.java:299-331 | `add` checks its item iff the element type is not nullable, exactly when the item parameter carries no marker |
| Synthesis.PutterNullChecks | record-builder/src/main/java/recordbuilder/RecordBuilderProcessor.java:365-407 | `put` checks key and value separately, each by its own type argument's nullability |
| Synthesis.GetterPolicy | record-builder/src/main/java/recordbuilder/RecordBuilderProcessor.java:475-536 | raw for primitive or nullable scalars; require-non-null for other scalars; for wrapped containers, null passes through iff the field is nullable, else require-non-null then a view |
| Synthesis.ViewPolicy | record-builder/src/main/java/recordbuilder/RecordBuilderProcessor.java:551-599 | the view is `unmodifiableSet` iff the interface is `Set`, and `unmodifiableMap` for maps; getter and `build` use the same view |
| Synthesis.ClearPolicy | record-builder/src/main/java/recordbuilder/RecordBuilderProcessor.java:439-473 | `clear` resets to the zero literal of the primitive's kind iff the field is primitive, else to null |
| Synthesis.FromPolicy | record-builder/src/main/java/recordbuilder/RecordBuilderProcessor.java:220-263 | `from` calls unconditionally iff the field is primitive, and calls the field's last mutator |
| Synthesis.CapitalizeSpec | record-builder/src/main/java/recordbuilder/RecordBuilderProcessor.java:803-808 | the length is kept, an empty name is unchanged, only the first character is upper-cased, and capitalizing twice changes nothing more |
| Synthesis.CapitalizeInvertible | record-builder/src/main/java/recordbuilder/RecordBuilderProcessor.java:803-808 | a name starting with a lower-case ASCII letter is recovered by lower-casing the first character |
| Runtime.Equals | record-builder/src/main/java/recordbuilder/RecordBuilderProcessor.java:570-589 | Java `equals` on component values: a view equals the store it wraps; EqualsReflexive states it |
| Runtime.Read | record-builder/src/main/java/recordbuilder/RecordBuilderProcessor.java:475-536 | the getter on a stored value; ReadPolicy and ReadNeverThrows state when it throws |
| Runtime.BuildValue | record-builder/src/main/java/recordbuilder/RecordBuilderProcessor.java:570-589 | one `build()` argument at run time; BuildValueEquals states it equals the field |
| Runtime.FromValue | record-builder/src/main/java/recordbuilder/RecordBuilderProcessor.java:228-258 | the field one `from` statement fills; FromValueEquals states it equals the component |
| Runtime.Builder.Has | record-builder/src/main/java/recordbuilder/RecordBuilderProcessor.java:538-549 | `hasX()` reads bit i of the mask, which Mark, SetField and Clear set and clear |
| Runtime.Builder.Get | record-builder/src/main/java/recordbuilder/RecordBuilderProcessor.java:475-536 | `getX()` is the getter on field i; ReadPolicy states its outcomes |
| Runtime.Builder.Of | record-builder/src/main/java/recordbuilder/RecordBuilderProcessor.java:146-150 | a fresh builder with every field at its Java default and no bit set |
| Runtime.Builder.Mark | record-builder/src/main/java/recordbuilder/RecordBuilderProcessor.java:810-823 | the emitted set-bit statement sets field i and keeps every other bit |
| Runtime.Builder.SetField | record-builder/src/main/java/recordbuilder/RecordBuilderProcessor.java:265-297 | fails with "x cannot be null" iff it checks and the value is null, changing nothing; otherwise it stores the value, marks the field even for null, and keeps the other fields' presence |
| Runtime.Builder.Add | record-builder/src/main/java/recordbuilder/RecordBuilderProcessor.java:299-331 | fails with "item cannot be null" iff it checks and the item is null; otherwise it creates the store if absent, adds the item and marks the field |
| Runtime.Builder.AddAll | record-builder/src/main/java/recordbuilder/RecordBuilderProcessor.java:333-363 | fails with "items cannot be null" iff the iterable is null; otherwise it adds every item in order, unchecked, and marks the field |
| Runtime.Builder.Put | record-builder/src/main/java/recordbuilder/RecordBuilderProcessor.java:365-407 | the key check comes before the value check, each with its message; otherwise it stores the entry and marks the field |
| Runtime.Builder.PutAll | record-builder/src/main/java/recordbuilder/RecordBuilderProcessor.java:409-437 | fails with "map cannot be null" iff the map is null; otherwise the new entries override the old and the field is marked |
| Runtime.Builder.Clear | record-builder/src/main/java/recordbuilder/RecordBuilderProcessor.java:439-461 | the field returns to its `of()` default and only its bit is cleared |
| Runtime.Builder.CopyComponent | record-builder/src/main/java/recordbuilder/RecordBuilderProcessor.java:228-258 | one `from` statement fills only that field with the copied value and marks it iff the policy calls its mutator |
| Runtime.From | record-builder/src/main/java/recordbuilder/RecordBuilderProcessor.java:220-263 | a null source throws iff there is a component to read; otherwise each field holds its copy of the source's component, and is present iff primitive or non-null |
| Runtime.BuildRecord | record-builder/src/main/java/recordbuilder/RecordBuilderProcessor.java:551-599 | one constructor argument per component |
| Runtime.Builder.Build | record-builder/src/main/java/recordbuilder/RecordBuilderProcessor.java:551-599 | the record has one value per field, whatever bits are set |
| Runtime.AddItemDistinct | record-builder/src/main/java/recordbuilder/RecordBuilderProcessor.java:319-323 | adding to a set store keeps it free of duplicates |
| Runtime.AddItemsDistinct | record-builder/src/main/java/recordbuilder/RecordBuilderProcessor.java:349-358 | adding many items to a set store keeps it free of duplicates |
| Runtime.AddItemsToList | record-builder/src/main/java/recordbuilder/RecordBuilderProcessor.java:349-358 | a list store receives the items appended in order, duplicates and nulls included |
| Runtime.AddItemToSet | record-builder/src/main/java/recordbuilder/RecordBuilderProcessor.java:319-323 | adding to a set store adds exactly that element to its contents |
| Runtime.AddItemsToSet | record-builder/src/main/java/recordbuilder/RecordBuilderProcessor.java:349-358 | a set store ends up holding the old elements plus the added ones |
| Runtime.EqualsReflexive | record-builder/src/main/java/recordbuilder/RecordBuilderProcessor.java:571-589 | every value equals itself, and a read-only view equals the store it wraps |
| Runtime.ReadPolicy | record-builder/src/main/java/recordbuilder/RecordBuilderProcessor.java:475-536 | the getter throws "x has not been set a value yet" iff it checks and the stored value is null, whatever the presence bit says; otherwise it returns a value equal to the store |
| Runtime.ReadNeverThrows | record-builder/src/main/java/recordbuilder/RecordBuilderProcessor.java:521-530 | primitive and nullable getters never throw; a non-nullable scalar getter throws iff the value is null |
| Runtime.ClearedIsInitial | record-builder/src/main/java/recordbuilder/RecordBuilderProcessor.java:449-473 | the value `clear` stores is the field's Java default |
| Runtime.EmittedBitsArePresence | record-builder/src/main/java/recordbuilder/RecordBuilderProcessor.java:265-549 | on any mask of the declared shape, every mutator of field i does what SetPresent does, `has` answers IsPresent, and `clear` does what ClearPresent does |
| Runtime.BuildValueEquals | record-builder/src/main/java/recordbuilder/RecordBuilderProcessor.java:571-589 | `build` passes on a value equal to the field (itself or an unmodifiable view) |
| Runtime.FromValueEquals | record-builder/src/main/java/recordbuilder/RecordBuilderProcessor.java:228-258 | the field `from` fills equals the component it copies when collection kinds match |
| Runtime.RoundTripComponent | record-builder/src/main/java/recordbuilder/RecordBuilderProcessor.java:228-258 | one component survives `from` followed by `build` |
| Runtime.BuildCompiles | record-builder/src/main/java/recordbuilder/RecordBuilderProcessor.java:570-589 | every argument of the generated `build()` type-checks against the record's constructor |
| Runtime.RoundTrip | record-builder/src/main/java/recordbuilder/RecordBuilderProcessor.java:220-263 | `from(r).build()` equals `r` for every typed record whose builder compiles and whose collections have the kind of the builder's store |
| Runtime.RoundTripNeedsMatchingKind | record-builder/src/main/java/recordbuilder/RecordBuilderProcessor.java:333-363 | a `Collection<String>` holding a set comes back as a list, so the round trip fails without the kind condition |
| Runtime.FromThenBuild | record-builder/src/main/java/recordbuilder/RecordBuilderProcessor.java:551-599 | running `from` then `build` on a builder that compiles gives a record equal to the source |
| Runtime.FromClearBuild | record-builder/src/main/java/recordbuilder/RecordBuilderProcessor.java:439-461 | after `from`, `clearX` and `build`, component x is its default, so a non-null reference component makes the records unequal |

## Left out

- Everything under `deployer-plugin/`: archive I/O, HTTP upload, GPG subprocesses and Gradle wiring, none of which touches the builder logic.
- JavaPoet emission: members are modelled as tagged descriptions of what they do, not as source text. Writing the file, diagnostics and the IOException path are left out.
- The compiler's type utilities: whether a type's erasure is assignable to `Collection` or `Map` is an input field of each component. Package lookup is not modelled.
- The "not a record" filter at the top of `process` is taken as a precondition: every input is a record's component list.
- `Collections.unmodifiable*` is a read-only flag over the same contents. In Java a view aliases the builder's live store. The model has no aliasing: getters return copies.
- Runtime.BuildRecord, Runtime.Builder.Build: the record gets a copy of each collection and map field. As written (RecordBuilderProcessor.java:576-588), `build()` passes `unmodifiable*(this.x)` over the builder's live store. So a record already built changes when the same builder later runs `addX` or `putX`. This is despite the comment at lines 568-569 promising defensive copies backed by a new collection. The model states the record's contents at the moment `build()` returns, not after later mutations.
- Iteration order of hash and tree sets and maps: set stores are compared as sets, maps by their entries.
- `ArrayDeque`'s identity-based `equals` and the null-rejecting containers (`TreeSet`, `ConcurrentSkipListSet`, `ConcurrentHashMap`, ...): every store accepts null elements and compares by contents.
- Runtime.RoundTrip, Runtime.FromThenBuild: require that each collection component has the kind (list or set) of the builder's store. Without it the round trip fails (Runtime.RoundTripNeedsMatchingKind), so it holds only for such records.
- Runtime.RoundTrip, Runtime.FromThenBuild: also require `BuildCompiles`. Take a component declared with a concrete container class (`ArrayList<String>`, `HashMap<String, Integer>`) under the processor's own tables. Its field gets the interface type, and `build()` passes an unmodifiable `List` or `Map` where the record's constructor expects the concrete class. javac rejects that builder, so it has no run to state anything about (Synthesis.ConcreteComponentNeedsConcreteTables). `SequencedCollection` is the only Java 21 supertype in ViewSupertypes.
- Runtime.BuildRecord, Runtime.Builder.Build: compute the record's values even for builders that do not compile, and only `BuildCompiles` separates those cases.
- The processor's tests target a newer builder: RecordBuilderProcessorTest.java:42 calls `setListString` on a `List` field, and the shipped processor emits no setter for a collection field. The round-trip rows therefore cite the generator code, not the test.
- Record identity: `from(r).build()` is a distinct instance in Java. The model has no identities beyond reference ids, so only equality is stated.
- Runtime.From: when a null source is dereferenced, the error is a JVM NullPointerException whose text the JVM chooses; the model uses a fixed message.
- Floating point: float and double zero values appear only as their literals, and every primitive is an integer bit pattern at run time.
- Synthesis.Capitalize: upper-cases ASCII letters only. `String.toUpperCase` on other characters, which can change the length, is not modelled. `toUpperCase` also uses the default locale. The model assumes a locale without special ASCII casing; under a Turkish or Azeri locale `i` becomes `İ`.
- Synthesis.CapitalizeInvertible: holds under that locale assumption only. Under a Turkish or Azeri locale, a name starting with `i` gets a non-ASCII first character.
- `merge()` of `RecordBuilder.java` is never generated, and `RecordDefault.java` has no logic; neither is modelled.
- The synchronized `init` and concurrent use of a builder are not modelled.
- Name collisions between members of different fields (e.g. a field `a` whose `addAllA` clashes with a field `allA`'s `addAllA`) are not ruled out; only the members of one field are proved pairwise distinct.
- Runtime.Builder.SetField: stated only for values the field's Java type admits (`Holds`), since javac rejects the others; Add, AddAll, Put and PutAll take elements, so they need no such condition.
- The getter and `build` pass-through for concrete containers under `concreteAware` appears in no shipped generator: both shipped versions of the processor wrap every collection and map read-only. It is modelled because an unmodifiable view cannot be returned or passed where the concrete class is expected. The helper's field types keep that class as their head.
