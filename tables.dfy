/**
 * The pure part of src/rttr/detail/reflection_database_p.h: the capacity
 * constants, the layout of the flat inheritance tables, the per-class data,
 * the property map (one index per name) and the method multimap (overloads
 * allowed), and the static predicates and queries over them.
 */
module Tables {
  import opened Wrappers
  import opened Types
  import opened Descriptors

  /** RTTR_MAX_TYPE_COUNT: slots in every per-id table; ids must stay below it. */
  const MAX_TYPE_COUNT: nat := 32767
  /** RTTR_MAX_INHERIT_TYPES_COUNT: base/derived/upcast slots per type. */
  const MAX_INHERIT_TYPES_COUNT: nat := 50

  /** The capacity violations the registry treats as fatal. */
  datatype Fatal = TooManyTypes | TooManyBaseClasses | TooManyDerivedTypes

  /** The outcome of a call that may hit a fatal capacity error. */
  datatype Result<T> = Ok(value: T) | Fail(error: Fatal)

  /**
   * Position of slot k of type t in a flat base/derived/upcast array
   * (t * 50 + k); it lies inside the array.
   */
  function Slot(t: TypeId, k: nat): (s: nat)
    requires t < MAX_TYPE_COUNT && k < MAX_INHERIT_TYPES_COUNT
    ensures s < MAX_TYPE_COUNT * MAX_INHERIT_TYPES_COUNT
  {
    t * MAX_INHERIT_TYPES_COUNT + k
  }

  /** A slot tells back its type and position. */
  lemma SlotDecodes(t: TypeId, k: nat)
    requires t < MAX_TYPE_COUNT && k < MAX_INHERIT_TYPES_COUNT
    ensures Slot(t, k) / MAX_INHERIT_TYPES_COUNT == t && Slot(t, k) % MAX_INHERIT_TYPES_COUNT == k
  {
  }

  /** Two slots coincide only for the same type and position: windows of distinct types never overlap. */
  lemma SlotsDisjoint(t1: TypeId, k1: nat, t2: TypeId, k2: nat)
    requires t1 < MAX_TYPE_COUNT && k1 < MAX_INHERIT_TYPES_COUNT
    requires t2 < MAX_TYPE_COUNT && k2 < MAX_INHERIT_TYPES_COUNT
    ensures Slot(t1, k1) == Slot(t2, k2) <==> t1 == t2 && k1 == k2
  {
    SlotDecodes(t1, k1);
    SlotDecodes(t2, k2);
  }

  // ---------------------------------------------------------------------
  // property_map, method_map, class_data

  /** property_map: a name maps to one index into the property container. */
  type PropertyMap = map<string, nat>

  /** One element of the method_map multimap: a name and an index into the method container. */
  datatype MethodEntry = MethodEntry(name: string, index: nat)

  /** method_map: an unordered_multimap, several entries may share a name. */
  type MethodMap = seq<MethodEntry>

  /** class_data: the constructors, properties and methods of one class. */
  datatype ClassData = ClassData(ctorList: seq<ConstructorDesc>, propertyMap: PropertyMap, methodMap: MethodMap)

  const EMPTY_CLASS_DATA := ClassData([], map[], [])

  /** class_data::add_constructor: the list grows by the constructor at its end. */
  function AddConstructor(cd: ClassData, ctor: ConstructorDesc): (r: ClassData)
    ensures r.ctorList == cd.ctorList + [ctor]
    ensures r.propertyMap == cd.propertyMap && r.methodMap == cd.methodMap
  {
    cd.(ctorList := cd.ctorList + [ctor])
  }

  /** Every index of the property map points into a container of n properties. */
  predicate PropertyIndicesBelow(pm: PropertyMap, n: nat) {
    forall name :: name in pm ==> pm[name] < n
  }

  /** Every entry of the method map points at a method of that name in the container. */
  predicate MethodEntriesValid(mm: MethodMap, methods: seq<MethodDesc>) {
    forall i :: 0 <= i < |mm| ==> mm[i].index < |methods| && methods[mm[i].index].name == mm[i].name
  }

  /** No two entries of a method map share both name and signature. */
  predicate NoDuplicateOverloads(mm: MethodMap, methods: seq<MethodDesc>)
    requires MethodEntriesValid(mm, methods)
  {
    forall i, j :: 0 <= i < j < |mm| && mm[i].name == mm[j].name ==>
      methods[mm[i].index].parameterTypes != methods[mm[j].index].parameterTypes
  }

  /** The invariant a method map keeps against the method container. */
  predicate MethodMapValid(mm: MethodMap, methods: seq<MethodDesc>) {
    MethodEntriesValid(mm, methods) && NoDuplicateOverloads(mm, methods)
  }

  /** The invariant a class_data keeps against the property and method containers. */
  predicate ClassDataValid(cd: ClassData, propertyCount: nat, methods: seq<MethodDesc>) {
    PropertyIndicesBelow(cd.propertyMap, propertyCount) && MethodMapValid(cd.methodMap, methods)
  }

  /** Growing the method container keeps a valid method map valid. */
  lemma MethodMapValidGrows(mm: MethodMap, methods: seq<MethodDesc>, more: seq<MethodDesc>)
    requires MethodMapValid(mm, methods)
    ensures MethodMapValid(mm, methods + more)
  {
    assert forall i :: 0 <= i < |mm| ==> (methods + more)[mm[i].index] == methods[mm[i].index];
  }

  // ---------------------------------------------------------------------
  // overload predicates

  /**
   * does_signature_match_arguments: compares the parameter types with the
   * argument types position by position; exact matches only.
   */
  function SignatureMatches(params: seq<Type>, args: seq<Type>): (r: bool)
    ensures r <==> params == args
  {
    if params == [] || args == [] then params == args
    else params[0].Equal(args[0]) && SignatureMatches(params[1..], args[1..])
  }

  /**
   * is_method_already_registered: the method map holds a method with the
   * same name whose signature matches the new method's.
   */
  function IsMethodAlreadyRegistered(m: MethodDesc, mm: MethodMap, methods: seq<MethodDesc>): (r: bool)
    requires MethodEntriesValid(mm, methods)
    ensures r <==> exists i :: 0 <= i < |mm| && mm[i].name == m.name &&
                                methods[mm[i].index].parameterTypes == m.parameterTypes
  {
    if mm == [] then false
    else
      (mm[0].name == m.name &&
       SignatureMatches(methods[mm[0].index].parameterTypes, m.parameterTypes))
      || IsMethodAlreadyRegistered(m, mm[1..], methods)
  }

  // ---------------------------------------------------------------------
  // lookups

  /** find_property: the property stored under the name, or not found. */
  function FindProperty(name: string, pm: PropertyMap, properties: seq<PropertyDesc>): (r: Option<PropertyDesc>)
    requires PropertyIndicesBelow(pm, |properties|)
    ensures r.None? <==> name !in pm
    ensures r.Some? ==> r.value in properties && r.value == properties[pm[name]]
  {
    if name in pm then Some(properties[pm[name]]) else None
  }

  /** find_method(name): some method registered under the name, or not found. */
  function FindMethod(name: string, mm: MethodMap, methods: seq<MethodDesc>): (r: Option<MethodDesc>)
    requires MethodEntriesValid(mm, methods)
    ensures r.None? <==> forall i :: 0 <= i < |mm| ==> mm[i].name != name
    ensures r.Some? ==> r.value.name == name &&
                        exists i :: 0 <= i < |mm| && mm[i].name == name && methods[mm[i].index] == r.value
  {
    if mm == [] then None
    else if mm[0].name == name then Some(methods[mm[0].index])
    else FindMethod(name, mm[1..], methods)
  }

  /**
   * find_method(name, params): a method registered under the name whose
   * signature matches the argument types exactly, or not found.
   */
  function FindMethodBySignature(name: string, args: seq<Type>, mm: MethodMap, methods: seq<MethodDesc>): (r: Option<MethodDesc>)
    requires MethodEntriesValid(mm, methods)
    ensures r.None? <==> forall i :: 0 <= i < |mm| && mm[i].name == name ==>
                                       methods[mm[i].index].parameterTypes != args
    ensures r.Some? ==> r.value.name == name && r.value.parameterTypes == args &&
                        exists i :: 0 <= i < |mm| && mm[i].name == name && methods[mm[i].index] == r.value
  {
    if mm == [] then None
    else if mm[0].name == name && SignatureMatches(methods[mm[0].index].parameterTypes, args) then
      Some(methods[mm[0].index])
    else FindMethodBySignature(name, args, mm[1..], methods)
  }

  /**
   * Overload resolution is unambiguous: in a map without duplicate
   * overloads, at most one entry matches a name and argument list, so the
   * lookup returns the method of that entry.
   */
  lemma ResolutionIsUnambiguous(name: string, args: seq<Type>, mm: MethodMap, methods: seq<MethodDesc>, i: nat)
    requires MethodMapValid(mm, methods)
    requires i < |mm| && mm[i].name == name && methods[mm[i].index].parameterTypes == args
    ensures FindMethodBySignature(name, args, mm, methods) == Some(methods[mm[i].index])
  {
    var r := FindMethodBySignature(name, args, mm, methods);
    assert forall j :: 0 <= j < |mm| && mm[j].name == name && methods[mm[j].index].parameterTypes == args ==> j == i;
    var j :| 0 <= j < |mm| && mm[j].name == name && methods[mm[j].index] == r.value;
  }

  /**
   * Adding an entry for a method that is not already registered keeps the
   * map free of duplicate overloads, and makes the method findable.
   */
  lemma AddingNewOverloadKeepsUnique(mm: MethodMap, methods: seq<MethodDesc>, m: MethodDesc)
    requires MethodMapValid(mm, methods)
    requires !IsMethodAlreadyRegistered(m, mm, methods)
    ensures MethodMapValid(mm + [MethodEntry(m.name, |methods|)], methods + [m])
    ensures FindMethodBySignature(m.name, m.parameterTypes,
                                  mm + [MethodEntry(m.name, |methods|)], methods + [m]) == Some(m)
  {
    var mm', methods' := mm + [MethodEntry(m.name, |methods|)], methods + [m];
    MethodMapValidGrows(mm, methods, [m]);
    assert forall i :: 0 <= i < |mm| ==> mm'[i] == mm[i] && methods'[mm[i].index] == methods[mm[i].index];
    assert MethodEntriesValid(mm', methods');
    ResolutionIsUnambiguous(m.name, m.parameterTypes, mm', methods', |mm|);
  }

  // ---------------------------------------------------------------------
  // register_property / register_method on one map

  /**
   * register_property on one property map: the name is bound to the index of
   * the property just appended to the container; a name already present is
   * rebound (last registration wins).
   */
  function InsertProperty(pm: PropertyMap, name: string, index: nat): PropertyMap {
    pm[name := index]
  }

  /**
   * After register_property, find_property on the same map returns the new
   * property for its name and what it returned before for every other name.
   */
  lemma InsertPropertyLookup(pm: PropertyMap, properties: seq<PropertyDesc>, prop: PropertyDesc, other: string)
    requires PropertyIndicesBelow(pm, |properties|)
    ensures PropertyIndicesBelow(InsertProperty(pm, prop.name, |properties|), |properties + [prop]|)
    ensures FindProperty(prop.name, InsertProperty(pm, prop.name, |properties|), properties + [prop]) == Some(prop)
    ensures other != prop.name ==>
              FindProperty(other, InsertProperty(pm, prop.name, |properties|), properties + [prop])
              == FindProperty(other, pm, properties)
  {
    var pm' := InsertProperty(pm, prop.name, |properties|);
    if other != prop.name && other in pm {
      assert pm'[other] == pm[other] < |properties|;
      assert (properties + [prop])[pm[other]] == properties[pm[other]];
    }
  }

  /**
   * register_method on one method map: a method whose name and signature are
   * already registered is dropped; otherwise an entry for it, indexing the
   * slot it is appended to, is added to the multimap.
   */
  function InsertMethod(mm: MethodMap, methods: seq<MethodDesc>, m: MethodDesc): MethodMap
    requires MethodEntriesValid(mm, methods)
  {
    if IsMethodAlreadyRegistered(m, mm, methods) then mm else mm + [MethodEntry(m.name, |methods|)]
  }

  /**
   * Overload lookup after an entry for a new method is added at the end: a
   * name and signature found before are found as before, and otherwise the
   * new method is found exactly when it matches.
   */
  lemma {:induction false} FindMethodBySignatureAfterAppend(name: string, args: seq<Type>, mm: MethodMap,
                                                           methods: seq<MethodDesc>, m: MethodDesc)
    requires MethodEntriesValid(mm, methods)
    ensures MethodEntriesValid(mm + [MethodEntry(m.name, |methods|)], methods + [m])
    ensures FindMethodBySignature(name, args, mm + [MethodEntry(m.name, |methods|)], methods + [m])
            == if FindMethodBySignature(name, args, mm, methods).Some? then FindMethodBySignature(name, args, mm, methods)
               else if m.name == name && m.parameterTypes == args then Some(m)
               else None
    decreases |mm|
  {
    var e := MethodEntry(m.name, |methods|);
    var mm', methods' := mm + [e], methods + [m];
    assert forall i :: 0 <= i < |mm| ==> mm'[i] == mm[i] && methods'[mm[i].index] == methods[mm[i].index];
    assert MethodEntriesValid(mm', methods');
    if mm == [] {
      assert mm'[1..] == [];
    } else {
      assert mm'[1..] == mm[1..] + [e];
      FindMethodBySignatureAfterAppend(name, args, mm[1..], methods, m);
    }
  }

  /**
   * register_method: a duplicate overload leaves the map as it is; a new
   * one keeps the map free of duplicates, becomes the method found for its
   * name and signature, and leaves every other lookup as it was.
   */
  lemma InsertMethodLookup(mm: MethodMap, methods: seq<MethodDesc>, m: MethodDesc, name: string, args: seq<Type>)
    requires MethodMapValid(mm, methods)
    ensures IsMethodAlreadyRegistered(m, mm, methods) ==> InsertMethod(mm, methods, m) == mm
    ensures !IsMethodAlreadyRegistered(m, mm, methods) ==>
              && MethodMapValid(InsertMethod(mm, methods, m), methods + [m])
              && FindMethodBySignature(m.name, m.parameterTypes, InsertMethod(mm, methods, m), methods + [m]) == Some(m)
              && ((name, args) != (m.name, m.parameterTypes) ==>
                    FindMethodBySignature(name, args, InsertMethod(mm, methods, m), methods + [m])
                    == FindMethodBySignature(name, args, mm, methods))
  {
    if !IsMethodAlreadyRegistered(m, mm, methods) {
      AddingNewOverloadKeepsUnique(mm, methods, m);
      FindMethodBySignatureAfterAppend(name, args, mm, methods, m);
    }
  }
}
