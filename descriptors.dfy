/**
 * The records the registration protocol builds and hands to the reflection
 * database: metadata, member descriptors, base-class entries, converters and
 * the eight classification flags of a type. Invokers, accessors, variant
 * factories and cast functions are opaque function pointers and appear as
 * Tokens.
 */
module Descriptors {
  import opened Types
  import opened CStrings
  import opened Wrappers

  /** An opaque function pointer or value; Null is nullptr. */
  datatype Token = Null | Handle(n: nat)

  // ---------------------------------------------------------------------
  // metadata

  /** The key of an entry in a metadata_container: an int or a string. */
  datatype MetaKey = IntKey(i: int) | StringKey(s: string)

  /** A metadata_container: one value per key. */
  type Metadata = map<MetaKey, Token>

  /** The key of an rttr::metadata item is a variant; it may hold any type. */
  datatype KeyVariant = IntVariant(i: int) | StringVariant(s: string) | OtherVariant(other: Token)

  /** One rttr::metadata item: a variant key and an opaque variant value. */
  datatype MetaItem = MetaItem(key: KeyVariant, value: Token)

  /** The metadata_container key an item is stored under, if any. */
  function KeyOf(k: KeyVariant): (r: Option<MetaKey>)
    ensures r.None? <==> k.OtherVariant?
    ensures k.IntVariant? ==> r == Some(IntKey(k.i))
    ensures k.StringVariant? ==> r == Some(StringKey(k.s))
  {
    match k
    case IntVariant(i) => Some(IntKey(i))
    case StringVariant(s) => Some(StringKey(s))
    case OtherVariant(_) => None
  }

  /**
   * The metadata after the items are set one after the other: an int-keyed
   * item goes to the int-keyed set_metadata, a string-keyed item to the
   * string-keyed one, any other item is skipped.
   */
  function Merge(m: Metadata, items: seq<MetaItem>): Metadata
  {
    if items == [] then m
    else
      var before := Merge(m, items[..|items| - 1]);
      var last := items[|items| - 1];
      match KeyOf(last.key)
      case Some(k) => before[k := last.value]
      case None => before
  }

  /** The value of the last item whose key converts to k. */
  function LastValueFor(items: seq<MetaItem>, k: MetaKey): Option<Token>
  {
    if items == [] then None
    else if KeyOf(items[|items| - 1].key) == Some(k) then Some(items[|items| - 1].value)
    else LastValueFor(items[..|items| - 1], k)
  }

  /**
   * Merging is "last write per key wins, keys accumulate": a key is present
   * after the merge iff it was before or some item carries it, and its value
   * is that of the last such item, else the old one.
   */
  lemma {:induction false} MergeLookup(m: Metadata, items: seq<MetaItem>, k: MetaKey)
    ensures k in Merge(m, items) <==> k in m || LastValueFor(items, k).Some?
    ensures LastValueFor(items, k).Some? ==> Merge(m, items)[k] == LastValueFor(items, k).value
    ensures LastValueFor(items, k).None? && k in m ==> Merge(m, items)[k] == m[k]
  {
    if items != [] {
      MergeLookup(m, items[..|items| - 1], k);
    }
  }

  /** Items whose key is neither int nor string leave the metadata as it was. */
  lemma {:induction false} MergeSkipsOtherKeys(m: Metadata, items: seq<MetaItem>)
    requires forall i :: 0 <= i < |items| ==> items[i].key.OtherVariant?
    ensures Merge(m, items) == m
  {
    if items != [] {
      MergeSkipsOtherKeys(m, items[..|items| - 1]);
    }
  }

  /** Merging a list in two pieces is merging the pieces one after the other. */
  lemma {:induction false} MergeAppend(m: Metadata, items: seq<MetaItem>, more: seq<MetaItem>)
    ensures Merge(m, items + more) == Merge(Merge(m, items), more)
  {
    if more == [] {
      assert items + more == items;
    } else {
      assert (items + more)[..|items + more| - 1] == items + more[..|more| - 1];
      MergeAppend(m, items, more[..|more| - 1]);
    }
  }

  /**
   * The metadata_container every member descriptor derives from, while the
   * descriptor is being built: set_metadata overwrites the value of a key.
   */
  class MetadataContainer {
    var data: Metadata

    constructor ()
      ensures data == map[]
    {
      data := map[];
    }

    /** set_metadata(int, variant). */
    method SetIntMetadata(key: int, value: Token)
      modifies this
      ensures data == old(data)[IntKey(key) := value]
    {
      data := data[IntKey(key) := value];
    }

    /** set_metadata(std::string, variant). */
    method SetStringMetadata(key: string, value: Token)
      modifies this
      ensures data == old(data)[StringKey(key) := value]
    {
      data := data[StringKey(key) := value];
    }
  }

  // ---------------------------------------------------------------------
  // policies

  /**
   * A policy object passed to a registration call. Which getter, setter or
   * invocation policy it selects is a compile-time mapping that is not part
   * of this model, so the descriptors record the policy they were derived
   * from.
   */
  datatype Policy = DefaultPropertyPolicy | DefaultInvoke | UserPolicy(tag: nat)

  /** The setter policy of a property: read_only, or the one the policy selects. */
  datatype SetterPolicy = ReadOnly | SetterOf(policy: Policy)

  // ---------------------------------------------------------------------
  // member descriptors

  datatype ConstructorDesc = ConstructorDesc(
    declaringType: Type, instanciatedType: Type, parameterTypes: seq<Type>,
    invoker: Token, metadata: Metadata)

  datatype DestructorDesc = DestructorDesc(declaringType: Type, invoker: Token)

  datatype PropertyDesc = PropertyDesc(
    name: string, declaringType: Type, valueType: Type,
    getter: Token, setter: Option<Token>,
    getterPolicy: Policy, setterPolicy: SetterPolicy, metadata: Metadata)

  datatype MethodDesc = MethodDesc(
    name: string, declaringType: Type, returnType: Type, parameterTypes: seq<Type>,
    invoker: Token, policy: Policy, metadata: Metadata)

  datatype EnumerationDesc = EnumerationDesc(
    declaringType: Type, enumType: Type, items: seq<(string, int)>, metadata: Metadata)

  /** A type_converter: from the source type (by canonical name) to the target type. */
  datatype Converter = Converter(sourceName: seq<Char>, targetName: seq<Char>, convert: Token)

  /** One entry of a type's base list: the base type and the upcast function to it. */
  datatype BaseClassInfo = BaseClassInfo(baseType: Type, castFunc: Token)

  /** The eight classification flags register_type records per type. */
  datatype Classification = Classification(
    isClass: bool, isEnum: bool, isArray: bool, isPointer: bool, isPrimitive: bool,
    isFunctionPointer: bool, isMemberObjectPointer: bool, isMemberFunctionPointer: bool)

  const NO_FLAGS := Classification(false, false, false, false, false, false, false, false)
}
