/** Name-to-class lookups for collection and map fields: the implementation
    class a lazily created backing store gets, and the interface (`List` or
    `Set`) the builder exposes. Two versions exist side by side: the
    concrete-aware tables of `CollectionHelper`, and the older private copies
    inside `RecordBuilderProcessor`, which know only Set/HashSet and
    List/ArrayList and always use HashMap. The `concreteAware` flag chooses
    one version as a whole. */
module CollectionHelper {
  import opened TypeAnalyzer

  const SetName: string := "java.util.Set"
  const ListName: string := "java.util.List"
  const MapName: string := "java.util.Map"

  /** The six set-like names for which the helper's interface lookup answers `Set`. */
  const SetLikeNames: set<string> :=
    {SetName, HashSetName, LinkedHashSetName, TreeSetName,
     CopyOnWriteArraySetName, ConcurrentSkipListSetName}

  /** The implementation classes that are sets. */
  const SetImplementations: set<string> :=
    {HashSetName, LinkedHashSetName, TreeSetName, CopyOnWriteArraySetName, ConcurrentSkipListSetName}

  /** `CollectionHelper.getCollectionImplClass`. */
  function HelperCollectionImplClass(t: JType): string
  {
    if !t.Declared? then ArrayListName
    else
      match t.name
      case "java.util.Set" => HashSetName
      case "java.util.HashSet" => HashSetName
      case "java.util.LinkedHashSet" => LinkedHashSetName
      case "java.util.TreeSet" => TreeSetName
      case "java.util.List" => ArrayListName
      case "java.util.ArrayList" => ArrayListName
      case "java.util.LinkedList" => LinkedListName
      case "java.util.ArrayDeque" => ArrayDequeName
      case "java.util.Vector" => VectorName
      case "java.util.Stack" => StackName
      case "java.util.concurrent.CopyOnWriteArrayList" => CopyOnWriteArrayListName
      case "java.util.concurrent.CopyOnWriteArraySet" => CopyOnWriteArraySetName
      case "java.util.concurrent.ConcurrentSkipListSet" => ConcurrentSkipListSetName
      case _ => ArrayListName
  }

  /** `CollectionHelper.getCollectionInterfaceClass`: `Set` for the six
      set-like names, `List` for the list-like ones and for everything else. */
  function HelperCollectionInterface(t: JType): string
  {
    if !t.Declared? then ListName
    else if t.name in SetLikeNames then SetName
    else if t.name in {ListName, ArrayListName, LinkedListName, VectorName, StackName, CopyOnWriteArrayListName} then ListName
    else ListName
  }

  /** `CollectionHelper.getMapImplClass`. */
  function HelperMapImplClass(t: JType): string
  {
    if !t.Declared? then HashMapName
    else
      match t.name
      case "java.util.Map" => HashMapName
      case "java.util.HashMap" => HashMapName
      case "java.util.LinkedHashMap" => LinkedHashMapName
      case "java.util.TreeMap" => TreeMapName
      case "java.util.WeakHashMap" => WeakHashMapName
      case "java.util.IdentityHashMap" => IdentityHashMapName
      case "java.util.Hashtable" => HashtableName
      case "java.util.Properties" => PropertiesName
      case "java.util.concurrent.ConcurrentHashMap" => ConcurrentHashMapName
      case "java.util.concurrent.ConcurrentSkipListMap" => ConcurrentSkipListMapName
      case _ => HashMapName
  }

  /** The processor's private `getCollectionImplClass`. */
  function ProcessorCollectionImplClass(t: JType): string
  {
    if !t.Declared? then ArrayListName
    else if t.name == SetName || t.name == HashSetName then HashSetName
    else if t.name == ListName || t.name == ArrayListName then ArrayListName
    else ArrayListName
  }

  /** The processor's private `getCollectionInterfaceClass`. */
  function ProcessorCollectionInterface(t: JType): string
  {
    if !t.Declared? then ListName
    else if t.name == SetName || t.name == HashSetName then SetName
    else if t.name == ListName || t.name == ArrayListName then ListName
    else ListName
  }

  /** The processor's `put` and `putAll` always create a `HashMap`. */
  function ProcessorMapImplClass(t: JType): string
  {
    HashMapName
  }

  function CollectionImplClass(t: JType, concreteAware: bool): string
  {
    if concreteAware then HelperCollectionImplClass(t) else ProcessorCollectionImplClass(t)
  }

  function CollectionInterface(t: JType, concreteAware: bool): string
  {
    if concreteAware then HelperCollectionInterface(t) else ProcessorCollectionInterface(t)
  }

  function MapImplClass(t: JType, concreteAware: bool): string
  {
    if concreteAware then HelperMapImplClass(t) else ProcessorMapImplClass(t)
  }

  /** Whether the interface lookup answers `Set`. */
  predicate ExposesSet(t: JType, concreteAware: bool)
  {
    t.Declared? && if concreteAware then t.name in SetLikeNames else t.name in {SetName, HashSetName}
  }

  lemma ExposesSetIff(t: JType, concreteAware: bool)
    ensures ExposesSet(t, concreteAware) <==> CollectionInterface(t, concreteAware) == SetName
  {
  }

  /** Every concrete collection name is its own implementation class. */
  lemma {:induction false} ConcreteCollectionIsOwnImpl(t: JType)
    requires IsConcreteCollectionType(t)
    ensures HelperCollectionImplClass(t) == t.name
  {
  }

  /** Interfaces and unknown collection types get defaults: `Set` gives
      HashSet, `List`, any unlisted name and any non-declared type give ArrayList. */
  lemma CollectionImplDefaults(t: JType)
    ensures t.Declared? && t.name == SetName ==> HelperCollectionImplClass(t) == HashSetName
    ensures t.Declared? && t.name == ListName ==> HelperCollectionImplClass(t) == ArrayListName
    ensures !t.Declared? ==> HelperCollectionImplClass(t) == ArrayListName
    ensures t.Declared? && t.name !in ConcreteCollectionNames && t.name !in {SetName, ListName} ==>
              HelperCollectionImplClass(t) == ArrayListName
  {
  }

  /** Every lookup is total and lands in a known set: implementation classes
      are always concrete collection names. */
  lemma {:induction false} CollectionImplIsConcrete(t: JType)
    ensures HelperCollectionImplClass(t) in ConcreteCollectionNames
    ensures ProcessorCollectionImplClass(t) in {HashSetName, ArrayListName}
  {
    if t.Declared? {
      var n := t.name;
      if n in ConcreteCollectionNames {
        ConcreteCollectionIsOwnImpl(t);
      }
    }
  }

  /** The helper's interface is `Set` for exactly the six set-like names and
      `List` otherwise. */
  lemma HelperInterfaceSetIff(t: JType)
    ensures HelperCollectionInterface(t) in {SetName, ListName}
    ensures HelperCollectionInterface(t) == SetName <==> t.Declared? && t.name in SetLikeNames
  {
  }

  /** The two helper tables agree: the interface is `Set` exactly when the
      implementation class is a set. */
  lemma {:induction false} HelperTablesAgree(t: JType)
    ensures HelperCollectionInterface(t) == SetName <==> HelperCollectionImplClass(t) in SetImplementations
  {
    if t.Declared? && t.name !in SetLikeNames {
      var n := t.name;
      assert n != SetName && n != HashSetName && n != LinkedHashSetName && n != TreeSetName;
      assert n != CopyOnWriteArraySetName && n != ConcurrentSkipListSetName;
    }
  }

  /** The processor's copies agree with each other: `Set` exactly when the
      implementation is HashSet. */
  lemma ProcessorTablesAgree(t: JType)
    ensures ProcessorCollectionInterface(t) in {SetName, ListName}
    ensures ProcessorCollectionInterface(t) == SetName <==> ProcessorCollectionImplClass(t) == HashSetName
  {
  }

  /** Where the processor answers `Set` the helper does too; the converse
      fails for the other set-like names, e.g. LinkedHashSet. */
  lemma ProcessorInterfaceRefinesHelper(t: JType)
    ensures ProcessorCollectionInterface(t) == SetName ==> HelperCollectionInterface(t) == SetName
    ensures var lhs := Declared(LinkedHashSetName, [], []);
            HelperCollectionInterface(lhs) == SetName && ProcessorCollectionInterface(lhs) == ListName
  {
  }

  /** Every concrete map name is its own implementation class; `Map`, unknown
      names and non-declared types give HashMap. */
  lemma {:induction false} MapImplLookup(t: JType)
    ensures IsConcreteMapType(t) ==> HelperMapImplClass(t) == t.name
    ensures !IsConcreteMapType(t) ==> HelperMapImplClass(t) == HashMapName
    ensures HelperMapImplClass(t) in ConcreteMapNames
  {
  }

  /** With `concreteAware` off, maps are HashMaps and the collection tables
      distinguish only the set family of the processor. */
  lemma ProcessorDefaults(t: JType)
    ensures MapImplClass(t, false) == HashMapName
    ensures CollectionImplClass(t, false) == (if t.Declared? && t.name in {SetName, HashSetName} then HashSetName else ArrayListName)
  {
  }
}
