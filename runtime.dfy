/** The behaviour of a generated builder at run time: per-field stores, the
    presence mask, and the generated `of`, `from`, `set`, `add`, `addAll`,
    `put`, `putAll`, `has`, `get`, `clear` and `build` methods, each following
    the member the synthesis policy describes for its field. */
module Runtime {
  import opened Wrappers
  import opened TypeAnalyzer
  import opened CollectionHelper
  import opened PresenceBitmap
  import opened Synthesis

  /** An element, key or map value: `null` or a reference to some object. */
  datatype Elem = NullRef | Ref(id: int)

  /** Whether a collection store behaves as a list or as a set. */
  datatype CollKind = ListLike | SetLike

  /** A field or record component value. `readOnly` marks an
      `unmodifiable*` view. */
  datatype Value =
    | Null
    | Prim(bits: int)
    | Obj(id: int)
    | Coll(kind: CollKind, items: seq<Elem>, readOnly: bool)
    | Dict(entries: map<Elem, Elem>, readOnly: bool)

  /** The kind of the store `add`/`addAll` create: a set exactly when the
      implementation class is a set. */
  function StoreKind(c: Component, concreteAware: bool): CollKind
  {
    if CollectionImplClass(c.typ, concreteAware) in SetImplementations then SetLike else ListLike
  }

  /** `Collection.add` on a list appends; on a set it adds a missing element. */
  function AddItem(k: CollKind, items: seq<Elem>, x: Elem): seq<Elem>
  {
    if k == SetLike && x in items then items else items + [x]
  }

  /** `add` of each of `xs` in turn. */
  function AddItems(k: CollKind, items: seq<Elem>, xs: seq<Elem>): seq<Elem>
    decreases |xs|
  {
    if xs == [] then items else AddItem(k, AddItems(k, items, xs[..|xs| - 1]), xs[|xs| - 1])
  }

  function Elements(items: seq<Elem>): set<Elem>
  {
    set x | x in items
  }

  /** No element occurs twice, as in a set store. */
  predicate Distinct(items: seq<Elem>)
  {
    forall a, b :: 0 <= a < b < |items| ==> items[a] != items[b]
  }

  /** Java `equals` on component values: a view equals its backing content,
      lists compare in order, sets as sets, maps by their entries. */
  predicate Equals(a: Value, b: Value)
  {
    match a
    case Coll(k, xs, _) =>
      b.Coll? && b.kind == k && (if k == ListLike then xs == b.items else Elements(xs) == Elements(b.items))
    case Dict(e, _) => b.Dict? && b.entries == e
    case _ => a == b
  }

  /** Java `equals` of two records of one type: component-wise. */
  predicate RecordEquals(a: seq<Value>, b: seq<Value>)
  {
    |a| == |b| && forall i :: 0 <= i < |a| ==> Equals(a[i], b[i])
  }

  /** What a builder field may hold: a collection field holds null or a
      writable store of its kind, a map field null or a writable map, a
      primitive field a primitive, anything else a reference or null. */
  predicate Holds(c: Component, v: Value, concreteAware: bool)
  {
    if IsCollection(c) then
      v.Null? || (v.Coll? && v.kind == StoreKind(c, concreteAware) && !v.readOnly && (v.kind == SetLike ==> Distinct(v.items)))
    else if IsMap(c) then v.Null? || (v.Dict? && !v.readOnly)
    else if IsPrimitive(c) then v.Prim?
    else !v.Prim?
  }

  /** A record value as Java types it: a collection component holds null or a
      collection, a map component null or a map, a primitive a primitive. */
  predicate Typed(c: Component, v: Value)
  {
    if IsCollection(c) then v.Null? || v.Coll?
    else if IsMap(c) then v.Null? || v.Dict?
    else if IsPrimitive(c) then v.Prim?
    else !v.Prim?
  }

  predicate RecordTyped(cs: seq<Component>, vs: seq<Value>)
  {
    |vs| == |cs| && forall i :: 0 <= i < |cs| ==> Typed(cs[i], vs[i])
  }

  /** A Java field's default: zero for a primitive, null otherwise. */
  function Initial(c: Component): Value
  {
    if IsPrimitive(c) then Prim(0) else Null
  }

  /** What `clear` stores: the zero literal of a primitive (every one of them
      denotes the all-zero value), null otherwise. */
  function Cleared(c: Component): Value
  {
    match ResetOf(c)
    case ResetToZero(_) => Prim(0)
    case ResetToNull => Null
  }

  function StoreItems(v: Value): seq<Elem>
  {
    if v.Coll? then v.items else []
  }

  function StoreEntries(v: Value): map<Elem, Elem>
  {
    if v.Dict? then v.entries else map[]
  }

  /** `Collections.unmodifiable*` over a store. */
  function View(v: Value): Value
  {
    match v
    case Coll(k, xs, _) => Coll(k, xs, true)
    case Dict(e, _) => Dict(e, true)
    case _ => v
  }

  /** The message `Objects.requireNonNull` carries in a getter. */
  function NotSetMessage(c: Component): string
  {
    c.name + " has not been set a value yet"
  }

  /** The generated getter applied to the stored value. */
  function Read(c: Component, concreteAware: bool, v: Value): Result<Value>
  {
    match AccessOf(c, concreteAware)
    case ReturnRaw => Success(v)
    case RequireNonNull => if v.Null? then Failure(NullPointer(NotSetMessage(c))) else Success(v)
    case RequireNonNullThenView(_) => if v.Null? then Failure(NullPointer(NotSetMessage(c))) else Success(View(v))
    case NullOrView(_) => if v.Null? then Success(Null) else Success(View(v))
  }

  /** One constructor argument of the generated `build()`. */
  function BuildValue(c: Component, concreteAware: bool, v: Value): Value
  {
    match BuildArgOf(c, concreteAware)
    case PassRaw => v
    case NullOrViewArg(_) => if v.Null? then Null else View(v)
  }

  /** The record `build()` constructs from the builder's fields. */
  function BuildRecord(cs: seq<Component>, concreteAware: bool, vs: seq<Value>): (r: seq<Value>)
    requires |vs| == |cs|
    ensures |r| == |cs|
  {
    seq(|cs|, i requires 0 <= i < |cs| => BuildValue(cs[i], concreteAware, vs[i]))
  }

  /** What `from(source)` leaves in the field of component `c`. */
  function FromValue(c: Component, concreteAware: bool, v: Value): Value
  {
    match FromStepOf(c)
    case SetAlways(_) => v
    case SetIfNonNull(_) => v
    case AddAllIfNonNull(_) =>
      if v.Null? then Null else Coll(StoreKind(c, concreteAware), AddItems(StoreKind(c, concreteAware), [], StoreItems(v)), false)
    case PutAllIfNonNull(_) => if v.Null? then Null else Dict(map[] + StoreEntries(v), false)
  }

  /** Whether `from(source)` marks the field of component `c` as set. */
  predicate FromMarks(c: Component, v: Value)
  {
    FromStepOf(c).SetAlways? || !v.Null?
  }

  /** The JVM's message when `from` dereferences a null source; its exact
      wording is chosen by the JVM. */
  const NullSourceMessage: string := "source is null"

  /** A generated builder object. */
  class Builder {
    const components: seq<Component>
    const concreteAware: bool
    var values: seq<Value>
    var mask: Mask

    ghost predicate Valid()
      reads this
    {
      |values| == |components| && Shaped(mask, |components|) &&
      forall i :: 0 <= i < |values| ==> Holds(components[i], values[i], concreteAware)
    }

    /** `hasX()`. */
    function Has(i: nat): bool
      reads this
      requires Valid() && i < |components|
    {
      IsPresent(mask, i, |components|)
    }

    /** `getX()`. */
    function Get(i: nat): Result<Value>
      reads this
      requires Valid() && i < |components|
    {
      Read(components[i], concreteAware, values[i])
    }

    /** `build()`. */
    function Build(): (r: seq<Value>)
      reads this
      requires Valid()
      ensures |r| == |components|
    {
      BuildRecord(components, concreteAware, values)
    }

    /** `of()`: every field at its Java default and no bit set. */
    constructor Of(cs: seq<Component>, ca: bool)
      ensures Valid() && components == cs && concreteAware == ca
      ensures values == seq(|cs|, i requires 0 <= i < |cs| => Initial(cs[i]))
      ensures mask == InitialMask(PlanMask(|cs|))
      ensures forall i :: 0 <= i < |cs| ==> !Has(i)
    {
      components := cs;
      concreteAware := ca;
      values := seq(|cs|, i requires 0 <= i < |cs| => Initial(cs[i]));
      mask := InitialMask(PlanMask(|cs|));
      new;
      forall i | 0 <= i < |cs| ensures !Has(i) {
        InitialMaskClear(i, |cs|);
      }
    }

    /** Marks field i as set; keeps the shape and every other bit. */
    method Mark(i: nat)
      requires i < |components| && Shaped(mask, |components|)
      modifies this
      ensures values == old(values)
      ensures Shaped(mask, |components|) && mask == SetPresent(old(mask), i, |components|)
      ensures IsPresent(mask, i, |components|)
      ensures forall j :: 0 <= j < |components| && j != i ==> IsPresent(mask, j, |components|) == IsPresent(old(mask), j, |components|)
    {
      var n := |components|;
      var m0 := mask;
      SetClearTest(m0, i, n);
      mask := SetPresent(m0, i, n);
      forall j | 0 <= j < n && j != i ensures IsPresent(mask, j, n) == IsPresent(m0, j, n) {
        SetClearFrame(m0, i, j, n);
      }
    }

    /** `setX(x)` of a field that is neither a collection nor a map. */
    method SetField(i: nat, v: Value) returns (o: Outcome)
      requires Valid() && i < |components|
      requires !IsCollection(components[i]) && !IsMap(components[i])
      requires Holds(components[i], v, concreteAware)
      modifies this
      ensures Valid()
      ensures o.Fail? <==> SetterChecksNull(components[i]) && v.Null?
      ensures o.Fail? ==> o.error == NullPointer(components[i].name + " cannot be null") && unchanged(this)
      ensures o.Pass? ==> values == old(values)[i := v] && mask == SetPresent(old(mask), i, |components|)
      ensures o.Pass? ==> Has(i) && Get(i) == Read(components[i], concreteAware, v)
      ensures forall j :: 0 <= j < |components| && j != i ==> Has(j) == old(Has(j))
    {
      var c := components[i];
      if SetterChecksNull(c) && v.Null? {
        return Fail(NullPointer(c.name + " cannot be null"));
      }
      values := values[i := v];
      Mark(i);
      o := Pass;
    }

    /** `addX(item)` of a collection field. */
    method Add(i: nat, x: Elem) returns (o: Outcome)
      requires Valid() && i < |components| && IsCollection(components[i])
      modifies this
      ensures Valid()
      ensures o.Fail? <==> AdderChecksItem(components[i]) && x.NullRef?
      ensures o.Fail? ==> o.error == NullPointer("item cannot be null") && unchanged(this)
      ensures o.Pass? ==> var k := StoreKind(components[i], concreteAware);
                          values == old(values)[i := Coll(k, AddItem(k, StoreItems(old(values)[i]), x), false)] &&
                          mask == SetPresent(old(mask), i, |components|)
      ensures o.Pass? ==> Has(i)
      ensures forall j :: 0 <= j < |components| && j != i ==> Has(j) == old(Has(j))
    {
      var c := components[i];
      if AdderChecksItem(c) && x.NullRef? {
        return Fail(NullPointer("item cannot be null"));
      }
      var k := StoreKind(c, concreteAware);
      if k == SetLike {
        AddItemDistinct(StoreItems(values[i]), x);
      }
      values := values[i := Coll(k, AddItem(k, StoreItems(values[i]), x), false)];
      Mark(i);
      o := Pass;
    }

    /** `addAllX(items)`: the items are not checked, only the iterable. */
    method AddAll(i: nat, items: Option<seq<Elem>>) returns (o: Outcome)
      requires Valid() && i < |components| && IsCollection(components[i])
      modifies this
      ensures Valid()
      ensures o.Fail? <==> items.None?
      ensures o.Fail? ==> o.error == NullPointer("items cannot be null") && unchanged(this)
      ensures o.Pass? ==> var k := StoreKind(components[i], concreteAware);
                          values == old(values)[i := Coll(k, AddItems(k, StoreItems(old(values)[i]), items.value), false)] &&
                          mask == SetPresent(old(mask), i, |components|)
      ensures o.Pass? ==> Has(i)
      ensures forall j :: 0 <= j < |components| && j != i ==> Has(j) == old(Has(j))
    {
      if items.None? {
        return Fail(NullPointer("items cannot be null"));
      }
      var k := StoreKind(components[i], concreteAware);
      var xs := items.value;
      var store := StoreItems(values[i]);
      var j := 0;
      while j < |xs|
        invariant j <= |xs|
        invariant store == AddItems(k, StoreItems(values[i]), xs[..j])
      {
        assert xs[..j + 1][..j] == xs[..j];
        store := AddItem(k, store, xs[j]);
        j := j + 1;
      }
      assert xs[..j] == xs;
      if k == SetLike {
        AddItemsDistinct(StoreItems(values[i]), xs);
      }
      values := values[i := Coll(k, store, false)];
      Mark(i);
      o := Pass;
    }

    /** `putX(key, value)`: the key is checked before the value. */
    method Put(i: nat, key: Elem, value: Elem) returns (o: Outcome)
      requires Valid() && i < |components| && !IsCollection(components[i]) && IsMap(components[i])
      modifies this
      ensures Valid()
      ensures o.Fail? <==> (PutterChecksKey(components[i]) && key.NullRef?) || (PutterChecksValue(components[i]) && value.NullRef?)
      ensures o.Fail? ==> unchanged(this) &&
                          o.error == NullPointer(if PutterChecksKey(components[i]) && key.NullRef? then "key cannot be null"
                                                 else "value cannot be null")
      ensures o.Pass? ==> values == old(values)[i := Dict(StoreEntries(old(values)[i])[key := value], false)] &&
                          mask == SetPresent(old(mask), i, |components|)
      ensures o.Pass? ==> Has(i)
      ensures forall j :: 0 <= j < |components| && j != i ==> Has(j) == old(Has(j))
    {
      var c := components[i];
      if PutterChecksKey(c) && key.NullRef? {
        return Fail(NullPointer("key cannot be null"));
      }
      if PutterChecksValue(c) && value.NullRef? {
        return Fail(NullPointer("value cannot be null"));
      }
      values := values[i := Dict(StoreEntries(values[i])[key := value], false)];
      Mark(i);
      o := Pass;
    }

    /** `putAllX(map)`: later entries replace earlier ones. */
    method PutAll(i: nat, m: Option<map<Elem, Elem>>) returns (o: Outcome)
      requires Valid() && i < |components| && !IsCollection(components[i]) && IsMap(components[i])
      modifies this
      ensures Valid()
      ensures o.Fail? <==> m.None?
      ensures o.Fail? ==> o.error == NullPointer("map cannot be null") && unchanged(this)
      ensures o.Pass? ==> values == old(values)[i := Dict(StoreEntries(old(values)[i]) + m.value, false)] &&
                          mask == SetPresent(old(mask), i, |components|)
      ensures o.Pass? ==> Has(i)
      ensures forall j :: 0 <= j < |components| && j != i ==> Has(j) == old(Has(j))
    {
      if m.None? {
        return Fail(NullPointer("map cannot be null"));
      }
      values := values[i := Dict(StoreEntries(values[i]) + m.value, false)];
      Mark(i);
      o := Pass;
    }

    /** `clearX()`: the field back to its Java default and its bit cleared. */
    method Clear(i: nat)
      requires Valid() && i < |components|
      modifies this
      ensures Valid()
      ensures values == old(values)[i := Cleared(components[i])]
      ensures mask == ClearPresent(old(mask), i, |components|)
      ensures !Has(i) && values[i] == Initial(components[i])
      ensures forall j :: 0 <= j < |components| && j != i ==> Has(j) == old(Has(j))
    {
      var n := |components|;
      values := values[i := Cleared(components[i])];
      var m0 := mask;
      SetClearTest(m0, i, n);
      mask := ClearPresent(m0, i, n);
      forall j | 0 <= j < n && j != i ensures IsPresent(mask, j, n) == IsPresent(m0, j, n) {
        SetClearFrame(m0, i, j, n);
      }
    }

    /** The statement `from` emits for component k, applied to the record's
        value `v` of that component while field k is still at its default. */
    method CopyComponent(k: nat, v: Value)
      requires Valid() && k < |components| && Typed(components[k], v)
      requires values[k] == Initial(components[k]) && !Has(k)
      modifies this
      ensures Valid()
      ensures values == old(values)[k := FromValue(components[k], concreteAware, v)]
      ensures Has(k) <==> FromMarks(components[k], v)
      ensures forall j :: 0 <= j < |components| && j != k ==> Has(j) == old(Has(j))
    {
      match FromStepOf(components[k]) {
      case SetAlways(_) => {
        var o := SetField(k, v);
      }
      case SetIfNonNull(_) => {
        if !v.Null? {
          var o := SetField(k, v);
        }
      }
      case AddAllIfNonNull(_) => {
        if !v.Null? {
          var o := AddAll(k, Some(v.items));
        }
      }
      case PutAllIfNonNull(_) => {
        if !v.Null? {
          var o := PutAll(k, Some(v.entries));
        }
      }
      }
    }
  }

  /** `from(source)`: a fresh builder, then one step per component. */
  method From(cs: seq<Component>, ca: bool, source: Option<seq<Value>>) returns (r: Result<Builder>)
    requires source.Some? ==> RecordTyped(cs, source.value)
    ensures r.Failure? <==> source.None? && |cs| > 0
    ensures r.Failure? ==> r.error == NullPointer(NullSourceMessage)
    ensures r.Success? ==> fresh(r.value) && r.value.Valid() && r.value.components == cs && r.value.concreteAware == ca
    ensures r.Success? && source.Some? ==>
              forall j :: 0 <= j < |cs| ==>
                r.value.values[j] == FromValue(cs[j], ca, source.value[j]) &&
                (r.value.Has(j) <==> FromMarks(cs[j], source.value[j]))
  {
    if source.None? && |cs| > 0 {
      return Failure(NullPointer(NullSourceMessage));
    }
    var b := new Builder.Of(cs, ca);
    if source.None? {
      return Success(b);
    }
    var src := source.value;
    var k := 0;
    while k < |cs|
      invariant k <= |cs|
      invariant fresh(b) && b.Valid() && b.components == cs && b.concreteAware == ca
      invariant forall j :: 0 <= j < k ==> b.values[j] == FromValue(cs[j], ca, src[j]) && (b.Has(j) <==> FromMarks(cs[j], src[j]))
      invariant forall j :: k <= j < |cs| ==> b.values[j] == Initial(cs[j]) && !b.Has(j)
      decreases |cs| - k
    {
      b.CopyComponent(k, src[k]);
      k := k + 1;
    }
    r := Success(b);
  }

  // Properties of the runtime model.

  /** Adding to a set store keeps it free of duplicates. */
  lemma AddItemDistinct(items: seq<Elem>, x: Elem)
    requires Distinct(items)
    ensures Distinct(AddItem(SetLike, items, x))
  {
  }

  lemma {:induction false} AddItemsDistinct(items: seq<Elem>, xs: seq<Elem>)
    requires Distinct(items)
    ensures Distinct(AddItems(SetLike, items, xs))
    decreases |xs|
  {
    if xs != [] {
      AddItemsDistinct(items, xs[..|xs| - 1]);
      AddItemDistinct(AddItems(SetLike, items, xs[..|xs| - 1]), xs[|xs| - 1]);
    }
  }

  /** A list store receives the items in order, duplicates and nulls included. */
  lemma {:induction false} AddItemsToList(items: seq<Elem>, xs: seq<Elem>)
    ensures AddItems(ListLike, items, xs) == items + xs
    decreases |xs|
  {
    if xs != [] {
      AddItemsToList(items, xs[..|xs| - 1]);
      assert items + xs == (items + xs[..|xs| - 1]) + [xs[|xs| - 1]];
    }
  }

  /** Adding to a set store adds the element to its element set. */
  lemma AddItemToSet(items: seq<Elem>, x: Elem)
    ensures Elements(AddItem(SetLike, items, x)) == Elements(items) + {x}
  {
  }

  /** A set store ends up holding exactly the old elements and the added ones. */
  lemma {:induction false} AddItemsToSet(items: seq<Elem>, xs: seq<Elem>)
    ensures Elements(AddItems(SetLike, items, xs)) == Elements(items) + Elements(xs)
    decreases |xs|
  {
    if xs != [] {
      var init := xs[..|xs| - 1];
      var last := xs[|xs| - 1];
      AddItemsToSet(items, init);
      AddItemToSet(AddItems(SetLike, items, init), last);
      assert xs == init + [last];
      assert Elements(xs) == Elements(init) + {last};
    }
  }

  /** Java `equals` is reflexive on every value, and a view equals its store. */
  lemma EqualsReflexive(v: Value)
    ensures Equals(v, v)
    ensures Equals(View(v), v)
  {
  }

  /** The getter policy at run time: it fails exactly when it checks and the
      stored value is null (whether or not the field was ever set), with the
      "has not been set" message; otherwise it returns the stored content. */
  lemma ReadPolicy(c: Component, concreteAware: bool, v: Value)
    ensures Read(c, concreteAware, v).Failure? <==>
              v.Null? && (AccessOf(c, concreteAware).RequireNonNull? || AccessOf(c, concreteAware).RequireNonNullThenView?)
    ensures Read(c, concreteAware, v).Failure? ==> Read(c, concreteAware, v).error == NullPointer(NotSetMessage(c))
    ensures Read(c, concreteAware, v).Success? ==> Equals(Read(c, concreteAware, v).value, v)
  {
  }

  /** Getters of primitive and nullable fields never throw; a non-nullable
      reference field's getter throws exactly on a null value. */
  lemma {:induction false} ReadNeverThrows(c: Component, concreteAware: bool, v: Value)
    ensures IsPrimitive(c) || IsNullable(c) ==> Read(c, concreteAware, v).Success?
    ensures !IsCollection(c) && !IsMap(c) && !IsPrimitive(c) && !IsNullable(c) ==>
              (Read(c, concreteAware, v).Failure? <==> v.Null?)
  {
    if IsPrimitive(c) {
      PrimitiveNeverContainer(c);
    }
  }

  /** `clear` restores the field to what `of()` started with. */
  lemma ClearedIsInitial(c: Component)
    ensures Cleared(c) == Initial(c)
  {
  }

  /** The statements the synthesis policy emits for field i act on the mask
      as the runtime's presence operations: every mutator sets the bit, `has`
      reads it and `clear` clears it. */
  lemma {:induction false} EmittedBitsArePresence(c: Component, i: nat, n: nat, concreteAware: bool, m: Mask)
    requires i < n && Shaped(m, n)
    ensures forall k :: 0 <= k < |MutatorsOf(c, i, n, concreteAware)| ==>
              var mark := MutatorsOf(c, i, n, concreteAware)[k].mark;
              !mark.TestNonZero? && Fits(mark.target, m) && Execute(mark, m) == SetPresent(m, i, n)
    ensures var test := HasOf(c, i, n).test;
            test.TestNonZero? && Fits(test.target, m) && Evaluate(test, m) == IsPresent(m, i, n)
    ensures var unmark := ClearerOf(c, i, n).unmark;
            !unmark.TestNonZero? && Fits(unmark.target, m) && Execute(unmark, m) == ClearPresent(m, i, n)
  {
    FieldMembersShareBit(c, i, n, concreteAware);
    GeneratorsAgree(i, n);
    TargetFits(i, n, m);
  }

  /** Collection values whose kind is the one the builder's store gets for
      that component. */
  predicate KindsMatch(cs: seq<Component>, concreteAware: bool, vs: seq<Value>)
    requires |vs| == |cs|
  {
    forall i :: 0 <= i < |cs| && IsCollection(cs[i]) && vs[i].Coll? ==> vs[i].kind == StoreKind(cs[i], concreteAware)
  }

  /** `build()` passes on a value equal to the field (the value itself or
      an unmodifiable view of it). */
  lemma BuildValueEquals(c: Component, concreteAware: bool, x: Value, y: Value)
    requires Equals(x, y)
    ensures Equals(BuildValue(c, concreteAware, x), y)
  {
  }

  /** The field `from` fills equals the component it copies. */
  lemma {:induction false} FromValueEquals(c: Component, concreteAware: bool, v: Value)
    requires Typed(c, v)
    requires IsCollection(c) && v.Coll? ==> v.kind == StoreKind(c, concreteAware)
    ensures Equals(FromValue(c, concreteAware, v), v)
  {
    if IsCollection(c) {
      if v.Coll? {
        if v.kind == ListLike {
          AddItemsToList([], v.items);
          assert [] + v.items == v.items;
        } else {
          AddItemsToSet([], v.items);
          assert Elements([]) == {};
        }
      }
    } else if IsMap(c) {
      if v.Dict? {
        assert map[] + v.entries == v.entries;
      }
    }
  }

  /** The field `from` fills, read back by `build`, equals the component. */
  lemma {:induction false} RoundTripComponent(c: Component, concreteAware: bool, v: Value)
    requires Typed(c, v)
    requires IsCollection(c) && v.Coll? ==> v.kind == StoreKind(c, concreteAware)
    ensures Equals(BuildValue(c, concreteAware, FromValue(c, concreteAware, v)), v)
  {
    FromValueEquals(c, concreteAware, v);
    BuildValueEquals(c, concreteAware, FromValue(c, concreteAware, v), v);
  }

  /** Every argument of the generated `build()` type-checks. */
  predicate BuildCompiles(cs: seq<Component>, concreteAware: bool)
  {
    forall i :: 0 <= i < |cs| ==> BuildArgAssignable(cs[i], concreteAware)
  }

  /** `from(r).build()` equals `r` for every typed record whose builder
      compiles and whose collections have the kind of the builder's store. */
  lemma {:induction false} RoundTrip(cs: seq<Component>, concreteAware: bool, vs: seq<Value>)
    requires BuildCompiles(cs, concreteAware)
    requires RecordTyped(cs, vs) && KindsMatch(cs, concreteAware, vs)
    ensures RecordEquals(BuildRecord(cs, concreteAware, seq(|cs|, j requires 0 <= j < |cs| => FromValue(cs[j], concreteAware, vs[j]))), vs)
  {
    var filled := seq(|cs|, j requires 0 <= j < |cs| => FromValue(cs[j], concreteAware, vs[j]));
    forall i | 0 <= i < |cs| ensures Equals(BuildRecord(cs, concreteAware, filled)[i], vs[i]) {
      RoundTripComponent(cs[i], concreteAware, vs[i]);
    }
  }

  /** The round trip needs the kinds to match: a `Collection<String>`
      component holding a set gets a list store, and `List.equals(Set)` is false. */
  lemma {:induction false} RoundTripNeedsMatchingKind(concreteAware: bool)
    ensures var c := Component("tags", Declared("java.util.Collection", [Declared("java.lang.String", [], [])], []), [], true, false);
            var v := Coll(SetLike, [Ref(1)], false);
            Typed(c, v) && !Equals(BuildValue(c, concreteAware, FromValue(c, concreteAware, v)), v)
  {
    var c := Component("tags", Declared("java.util.Collection", [Declared("java.lang.String", [], [])], []), [], true, false);
    assert c.typ.name != SetName && c.typ.name != HashSetName;
    assert c.typ.name !in ConcreteCollectionNames;
    assert CollectionImplClass(c.typ, concreteAware) == ArrayListName;
    assert StoreKind(c, concreteAware) == ListLike;
  }

  /** `R.Builder.from(r).build()`, the round trip of the generated code. */
  method FromThenBuild(cs: seq<Component>, concreteAware: bool, vs: seq<Value>) returns (r: seq<Value>)
    requires BuildCompiles(cs, concreteAware)
    requires RecordTyped(cs, vs) && KindsMatch(cs, concreteAware, vs)
    ensures RecordEquals(r, vs)
  {
    var res := From(cs, concreteAware, Some(vs));
    var b := res.value;
    r := b.Build();
    assert b.values == seq(|cs|, j requires 0 <= j < |cs| => FromValue(cs[j], concreteAware, vs[j]));
    RoundTrip(cs, concreteAware, vs);
  }

  /** `from(r)` followed by `clearX()` and `build()`: the component comes back
      as its default, so a non-null reference component is lost. */
  method FromClearBuild(cs: seq<Component>, concreteAware: bool, vs: seq<Value>, i: nat) returns (r: seq<Value>)
    requires RecordTyped(cs, vs) && i < |cs|
    ensures |r| == |cs| && r[i] == BuildValue(cs[i], concreteAware, Initial(cs[i]))
    ensures !IsPrimitive(cs[i]) ==> r[i] == Null
    ensures !IsPrimitive(cs[i]) && !vs[i].Null? ==> !RecordEquals(r, vs)
  {
    var res := From(cs, concreteAware, Some(vs));
    var b := res.value;
    b.Clear(i);
    r := b.Build();
  }
}
