/**
 * The registration protocol of src/rttr/impl/register_reflection_impl.h:
 * each declaration builds its descriptor, stores the declared metadata on it
 * and only then hands it to the database, in a fixed order of calls.
 *
 * The owner passed to each *_impl is the result of type::get<ClassType>();
 * for a class_<T> member it is the type of T, for the free property_,
 * method_ and enumeration_ forms it is type::get<void>(), which the free
 * forms obtain from the MetaTypeInfo cache. The types a descriptor mentions
 * (value, return, parameter and instantiated types) are registered types
 * passed in; the registrations their getters trigger are not part of this
 * model.
 */
module Registration {
  import opened Wrappers
  import opened CStrings
  import opened Types
  import opened Descriptors
  import opened Tables
  import opened ReflectionDatabase
  import opened MetaType

  /**
   * store_metadata: the items are set on the descriptor in order; an
   * int-keyed item through the int-keyed set_metadata, a string-keyed one
   * through the string-keyed set_metadata, any other item is skipped.
   */
  method StoreMetadata(obj: MetadataContainer, data: seq<MetaItem>)
    modifies obj
    ensures obj.data == Merge(old(obj.data), data)
  {
    var i := 0;
    while i < |data|
      invariant i <= |data|
      invariant obj.data == Merge(old(obj.data), data[..i])
    {
      var item := data[i];
      assert data[..i + 1][..i] == data[..i];
      match item.key {
        case IntVariant(k) => obj.SetIntMetadata(k, item.value);
        case StringVariant(k) => obj.SetStringMetadata(k, item.value);
        case OtherVariant(_) =>
      }
      i := i + 1;
    }
    assert data[..i] == data;
  }

  /** The metadata a fresh descriptor holds once store_metadata has run. */
  method DescriptorMetadata(data: seq<MetaItem>) returns (m: Metadata)
    ensures m == Merge(map[], data)
  {
    var container := new MetadataContainer();
    StoreMetadata(container, data);
    m := container.data;
  }

  /**
   * constructor_impl: a constructor of the class, carrying the declared
   * metadata, is registered, and then always a destructor for the same
   * type.
   */
  method ConstructorImpl(db: Database, owner: Type, instanciatedType: Type, parameterTypes: seq<Type>,
                         invoker: Token, destructorInvoker: Token, data: seq<MetaItem>)
    requires db.Valid() && db.IsRegistered(owner)
    modifies db`log, db.memberList
    ensures db.Valid()
    ensures db.log == old(db.log) + [ConstructorCall(owner), DestructorCall(owner)]
    ensures db.memberList[owner.id] == old(db.memberList[owner.id]).(
              classData := Some(AddConstructor(old(db.ClassDataOf(owner.id)),
                ConstructorDesc(owner, instanciatedType, parameterTypes, invoker, Merge(map[], data)))),
              destructor := Some(DestructorDesc(owner, destructorInvoker)))
    ensures forall u :: 0 <= u < MAX_TYPE_COUNT && u != owner.id ==> db.memberList[u] == old(db.memberList[u])
  {
    var metadata := DescriptorMetadata(data);
    var ctor := ConstructorDesc(owner, instanciatedType, parameterTypes, invoker, metadata);
    db.RegisterConstructor(owner, ctor);
    db.RegisterDestructor(owner, DestructorDesc(owner, destructorInvoker));
  }

  /**
   * register_property, seen through find_property: in the owner's scope the
   * new property is found under its name, and every other name finds what
   * it found before. Nothing else changes: not the method container or maps,
   * not the other scopes, and in the owner's class data neither the
   * constructor list nor the method map.
   */
  method AddProperty(db: Database, owner: Type, prop: PropertyDesc)
    requires db.Valid() && db.IsRegistered(owner)
    modifies db`globalProperties, db`propertyList, db`log, db.memberList
    ensures db.Valid()
    ensures db.log == old(db.log) + [PropertyCall(owner, prop.name)]
    ensures db.propertyList == old(db.propertyList) + [prop]
    ensures PropertyIndicesBelow(db.PropertiesIn(db.ScopeOf(owner)), |db.propertyList|)
    ensures FindProperty(prop.name, db.PropertiesIn(db.ScopeOf(owner)), db.propertyList) == Some(prop)
    ensures forall other :: other != prop.name ==>
              FindProperty(other, db.PropertiesIn(db.ScopeOf(owner)), db.propertyList)
              == old(FindProperty(other, db.PropertiesIn(db.ScopeOf(owner)), db.propertyList))
    ensures db.methodList == old(db.methodList) && db.globalMethods == old(db.globalMethods)
    ensures db.ScopeOf(owner).InClass? ==>
              && db.globalProperties == old(db.globalProperties)
              && db.memberList[owner.id].(classData := None) == old(db.memberList[owner.id]).(classData := None)
              && db.ClassDataOf(owner.id).ctorList == old(db.ClassDataOf(owner.id)).ctorList
              && db.ClassDataOf(owner.id).methodMap == old(db.ClassDataOf(owner.id)).methodMap
    ensures forall t :: 0 <= t < MAX_TYPE_COUNT && db.ScopeOf(owner) != InClass(t) ==> db.memberList[t] == old(db.memberList[t])
  {
    db.ScopesValid(db.ScopeOf(owner));
    ghost var pm := db.PropertiesIn(db.ScopeOf(owner));
    ghost var properties := db.propertyList;
    db.RegisterProperty(owner, prop);
    InsertPropertyLookup(pm, properties, prop, prop.name);
    forall other | other != prop.name
      ensures FindProperty(other, db.PropertiesIn(db.ScopeOf(owner)), db.propertyList)
              == FindProperty(other, pm, properties)
    {
      InsertPropertyLookup(pm, properties, prop, other);
    }
  }

  /**
   * register_method, seen through overload lookup: in the owner's scope the
   * method found for the new method's name and signature is the one found
   * before if there was one (the first registration stays, and nothing but
   * the log changes), else the new method, which joins the container; every other name and signature finds what it found before.
   * Nothing else changes: not the property container or maps, not the other
   * scopes, and in the owner's class data neither the constructor list nor
   * the property map.
   */
  method AddMethod(db: Database, owner: Type, m: MethodDesc)
    requires db.Valid() && db.IsRegistered(owner)
    modifies db`globalMethods, db`methodList, db`log, db.memberList
    ensures db.Valid()
    ensures db.log == old(db.log) + [MethodCall(owner, m.name)]
    ensures MethodEntriesValid(db.MethodsIn(db.ScopeOf(owner)), db.methodList)
    ensures var before := old(FindMethodBySignature(m.name, m.parameterTypes, db.MethodsIn(db.ScopeOf(owner)), db.methodList));
            && FindMethodBySignature(m.name, m.parameterTypes, db.MethodsIn(db.ScopeOf(owner)), db.methodList)
               == (if before.Some? then before else Some(m))
            && db.methodList == (if before.Some? then old(db.methodList) else old(db.methodList) + [m])
            && (before.Some? ==> db.globalMethods == old(db.globalMethods) && db.memberList[owner.id] == old(db.memberList[owner.id]))
    ensures forall name, args :: (name, args) != (m.name, m.parameterTypes) ==>
              FindMethodBySignature(name, args, db.MethodsIn(db.ScopeOf(owner)), db.methodList)
              == old(FindMethodBySignature(name, args, db.MethodsIn(db.ScopeOf(owner)), db.methodList))
    ensures db.propertyList == old(db.propertyList) && db.globalProperties == old(db.globalProperties)
    ensures db.ScopeOf(owner).InClass? ==>
              && db.globalMethods == old(db.globalMethods)
              && db.memberList[owner.id].(classData := None) == old(db.memberList[owner.id]).(classData := None)
              && db.ClassDataOf(owner.id).ctorList == old(db.ClassDataOf(owner.id)).ctorList
              && db.ClassDataOf(owner.id).propertyMap == old(db.ClassDataOf(owner.id)).propertyMap
    ensures forall t :: 0 <= t < MAX_TYPE_COUNT && db.ScopeOf(owner) != InClass(t) ==> db.memberList[t] == old(db.memberList[t])
  {
    db.ScopesValid(db.ScopeOf(owner));
    ghost var mm := db.MethodsIn(db.ScopeOf(owner));
    ghost var methods := db.methodList;
    db.RegisterMethod(owner, m);
    InsertMethodLookup(mm, methods, m, m.name, m.parameterTypes);
    forall name, args | (name, args) != (m.name, m.parameterTypes)
      ensures FindMethodBySignature(name, args, db.MethodsIn(db.ScopeOf(owner)), db.methodList)
              == FindMethodBySignature(name, args, mm, methods)
    {
      InsertMethodLookup(mm, methods, m, name, args);
    }
  }

  /**
   * property_impl with one accessor: the accessor both reads and writes the
   * value; the getter and setter policies both come from the policy passed.
   * The property, carrying the declared metadata, is registered under the
   * owner: find_property in the owner's scope then returns it, every other
   * name finds what it found before, and nothing else changes.
   */
  method PropertyImpl(db: Database, owner: Type, name: string, valueType: Type, accessor: Token,
                      data: seq<MetaItem>, policy: Policy)
    requires db.Valid() && db.IsRegistered(owner)
    modifies db`globalProperties, db`propertyList, db`log, db.memberList
    ensures db.Valid() && db.TypeTablesNow() == old(db.TypeTablesNow()) && unchanged(db.typeInfoList)
    ensures db.log == old(db.log) + [PropertyCall(owner, name)]
    ensures var prop := PropertyDesc(name, owner, valueType, accessor, None, policy, SetterOf(policy), Merge(map[], data));
            && db.propertyList == old(db.propertyList) + [prop]
            && FindProperty(name, db.PropertiesIn(db.ScopeOf(owner)), db.propertyList) == Some(prop)
    ensures PropertyIndicesBelow(db.PropertiesIn(db.ScopeOf(owner)), |db.propertyList|)
    ensures forall other :: other != name ==>
              FindProperty(other, db.PropertiesIn(db.ScopeOf(owner)), db.propertyList)
              == old(FindProperty(other, db.PropertiesIn(db.ScopeOf(owner)), db.propertyList))
    ensures db.methodList == old(db.methodList) && db.globalMethods == old(db.globalMethods)
    ensures db.ScopeOf(owner).InClass? ==>
              && db.globalProperties == old(db.globalProperties)
              && db.memberList[owner.id].(classData := None) == old(db.memberList[owner.id]).(classData := None)
              && db.ClassDataOf(owner.id).ctorList == old(db.ClassDataOf(owner.id)).ctorList
              && db.ClassDataOf(owner.id).methodMap == old(db.ClassDataOf(owner.id)).methodMap
    ensures forall t :: 0 <= t < MAX_TYPE_COUNT && db.ScopeOf(owner) != InClass(t) ==> db.memberList[t] == old(db.memberList[t])
  {
    var metadata := DescriptorMetadata(data);
    AddProperty(db, owner, PropertyDesc(name, owner, valueType, accessor, None, policy, SetterOf(policy), metadata));
  }

  /**
   * property_impl with a getter and a setter: as the one-accessor form, with
   * the setter kept apart from the getter.
   */
  method PropertyGetSetImpl(db: Database, owner: Type, name: string, valueType: Type, getter: Token, setter: Token,
                            data: seq<MetaItem>, policy: Policy)
    requires db.Valid() && db.IsRegistered(owner)
    modifies db`globalProperties, db`propertyList, db`log, db.memberList
    ensures db.Valid() && db.TypeTablesNow() == old(db.TypeTablesNow()) && unchanged(db.typeInfoList)
    ensures db.log == old(db.log) + [PropertyCall(owner, name)]
    ensures var prop := PropertyDesc(name, owner, valueType, getter, Some(setter), policy, SetterOf(policy), Merge(map[], data));
            && db.propertyList == old(db.propertyList) + [prop]
            && FindProperty(name, db.PropertiesIn(db.ScopeOf(owner)), db.propertyList) == Some(prop)
    ensures PropertyIndicesBelow(db.PropertiesIn(db.ScopeOf(owner)), |db.propertyList|)
    ensures forall other :: other != name ==>
              FindProperty(other, db.PropertiesIn(db.ScopeOf(owner)), db.propertyList)
              == old(FindProperty(other, db.PropertiesIn(db.ScopeOf(owner)), db.propertyList))
    ensures db.methodList == old(db.methodList) && db.globalMethods == old(db.globalMethods)
    ensures db.ScopeOf(owner).InClass? ==>
              && db.globalProperties == old(db.globalProperties)
              && db.memberList[owner.id].(classData := None) == old(db.memberList[owner.id]).(classData := None)
              && db.ClassDataOf(owner.id).ctorList == old(db.ClassDataOf(owner.id)).ctorList
              && db.ClassDataOf(owner.id).methodMap == old(db.ClassDataOf(owner.id)).methodMap
    ensures forall t :: 0 <= t < MAX_TYPE_COUNT && db.ScopeOf(owner) != InClass(t) ==> db.memberList[t] == old(db.memberList[t])
  {
    var metadata := DescriptorMetadata(data);
    AddProperty(db, owner, PropertyDesc(name, owner, valueType, getter, Some(setter), policy, SetterOf(policy), metadata));
  }

  /**
   * property_readonly_impl: the getter policy comes from the policy passed,
   * the setter policy is read_only whatever that policy is.
   */
  method PropertyReadonlyImpl(db: Database, owner: Type, name: string, valueType: Type, accessor: Token,
                              data: seq<MetaItem>, policy: Policy)
    requires db.Valid() && db.IsRegistered(owner)
    modifies db`globalProperties, db`propertyList, db`log, db.memberList
    ensures db.Valid() && db.TypeTablesNow() == old(db.TypeTablesNow()) && unchanged(db.typeInfoList)
    ensures db.log == old(db.log) + [PropertyCall(owner, name)]
    ensures var prop := PropertyDesc(name, owner, valueType, accessor, None, policy, ReadOnly, Merge(map[], data));
            && db.propertyList == old(db.propertyList) + [prop]
            && FindProperty(name, db.PropertiesIn(db.ScopeOf(owner)), db.propertyList) == Some(prop)
    ensures PropertyIndicesBelow(db.PropertiesIn(db.ScopeOf(owner)), |db.propertyList|)
    ensures forall other :: other != name ==>
              FindProperty(other, db.PropertiesIn(db.ScopeOf(owner)), db.propertyList)
              == old(FindProperty(other, db.PropertiesIn(db.ScopeOf(owner)), db.propertyList))
    ensures db.methodList == old(db.methodList) && db.globalMethods == old(db.globalMethods)
    ensures db.ScopeOf(owner).InClass? ==>
              && db.globalProperties == old(db.globalProperties)
              && db.memberList[owner.id].(classData := None) == old(db.memberList[owner.id]).(classData := None)
              && db.ClassDataOf(owner.id).ctorList == old(db.ClassDataOf(owner.id)).ctorList
              && db.ClassDataOf(owner.id).methodMap == old(db.ClassDataOf(owner.id)).methodMap
    ensures forall t :: 0 <= t < MAX_TYPE_COUNT && db.ScopeOf(owner) != InClass(t) ==> db.memberList[t] == old(db.memberList[t])
  {
    var metadata := DescriptorMetadata(data);
    AddProperty(db, owner, PropertyDesc(name, owner, valueType, accessor, None, policy, ReadOnly, metadata));
  }

  /**
   * method_impl: the method, carrying the declared metadata, is registered
   * under the owner; overload lookup in the owner's scope then finds it,
   * unless a method of the same name and signature was there first (and
   * then nothing but the log changes); every other name and signature finds
   * what it found before.
   */
  method MethodImpl(db: Database, owner: Type, name: string, returnType: Type, parameterTypes: seq<Type>,
                    invoker: Token, data: seq<MetaItem>, policy: Policy)
    requires db.Valid() && db.IsRegistered(owner)
    modifies db`globalMethods, db`methodList, db`log, db.memberList
    ensures db.Valid() && db.TypeTablesNow() == old(db.TypeTablesNow()) && unchanged(db.typeInfoList)
    ensures db.log == old(db.log) + [MethodCall(owner, name)]
    ensures MethodEntriesValid(db.MethodsIn(db.ScopeOf(owner)), db.methodList)
    ensures var m := MethodDesc(name, owner, returnType, parameterTypes, invoker, policy, Merge(map[], data));
            var before := old(FindMethodBySignature(name, parameterTypes, db.MethodsIn(db.ScopeOf(owner)), db.methodList));
            && FindMethodBySignature(name, parameterTypes, db.MethodsIn(db.ScopeOf(owner)), db.methodList)
               == (if before.Some? then before else Some(m))
            && db.methodList == (if before.Some? then old(db.methodList) else old(db.methodList) + [m])
            && (before.Some? ==> db.globalMethods == old(db.globalMethods) && db.memberList[owner.id] == old(db.memberList[owner.id]))
    ensures forall other, args :: (other, args) != (name, parameterTypes) ==>
              FindMethodBySignature(other, args, db.MethodsIn(db.ScopeOf(owner)), db.methodList)
              == old(FindMethodBySignature(other, args, db.MethodsIn(db.ScopeOf(owner)), db.methodList))
    ensures db.propertyList == old(db.propertyList) && db.globalProperties == old(db.globalProperties)
    ensures db.ScopeOf(owner).InClass? ==>
              && db.globalMethods == old(db.globalMethods)
              && db.memberList[owner.id].(classData := None) == old(db.memberList[owner.id]).(classData := None)
              && db.ClassDataOf(owner.id).ctorList == old(db.ClassDataOf(owner.id)).ctorList
              && db.ClassDataOf(owner.id).propertyMap == old(db.ClassDataOf(owner.id)).propertyMap
    ensures forall t :: 0 <= t < MAX_TYPE_COUNT && db.ScopeOf(owner) != InClass(t) ==> db.memberList[t] == old(db.memberList[t])
  {
    var metadata := DescriptorMetadata(data);
    AddMethod(db, owner, MethodDesc(name, owner, returnType, parameterTypes, invoker, policy, metadata));
  }

  /**
   * enumeration_impl: the declaring type is the invalid type when ClassType
   * is void (classDecl is None), else type::get<ClassType>(), registered on
   * first use; the enumeration is then registered under
   * type::get<EnumType>(), also registered on first use. When a type cannot
   * be registered, no enumeration is registered.
   */
  method EnumerationImpl(cache: TypeCache, db: Database, classDecl: Option<TypeDecl>, enumDecl: TypeDecl,
                         items: seq<(string, int)>, data: seq<MetaItem>) returns (r: Result<Type>)
    requires cache.Ready(db)
    requires classDecl.Some? ==> WellFormed(classDecl.value) && BasesBelow(classDecl.value, db.typeIdCounter)
    requires WellFormed(enumDecl) && BasesBelow(enumDecl, db.typeIdCounter)
    modifies cache, db`typeIdCounter, db`nameToId, db`baseOf, db`upcastOf, db`derivedOf, db`log
    modifies db.typeInfoList, db.baseClassList, db.derivedClassList, db.conversionList, db.memberList
    ensures CacheKept(old(cache.cached), cache.cached)
    ensures TypesKept(old(db.TypeTablesNow()), db.TypeTablesNow()) && db.InfosKept()
    ensures r.Ok? || r.error != TooManyDerivedTypes ==> cache.Ready(db)
    ensures r.Ok? ==> Content(enumDecl.name) in db.nameToId && r.value.id == db.nameToId[Content(enumDecl.name)]
    ensures r.Ok? ==> |db.log| > 0 && db.log[|db.log| - 1] == EnumerationCall(r.value)
    ensures r.Ok? && Content(enumDecl.name) in old(cache.cached)
                  && (classDecl.Some? ==> Content(classDecl.value.name) in old(cache.cached)) ==>
              db.log == old(db.log) + [EnumerationCall(r.value)]
    ensures r.Ok? && classDecl.Some? ==> Content(classDecl.value.name) in db.nameToId
    ensures r.Ok? ==>
              var declaring := if classDecl.None? then InvalidType() else Type(db.nameToId[Content(classDecl.value.name)]);
              db.memberList[r.value.id] == old(db.memberList[r.value.id]).(enumeration := Some(
                EnumerationDesc(declaring, r.value, items, Merge(map[], data))))
    ensures forall u :: 0 <= u < MAX_TYPE_COUNT && (r.Fail? || u != r.value.id) ==> db.memberList[u] == old(db.memberList[u])
  {
    ghost var before := db.TypeTablesNow();
    var declaringType := DeclaringType(cache, db, classDecl);
    if declaringType.Fail? {
      return declaringType;
    }
    BasesBelowLater(enumDecl, before.counter, db.typeIdCounter);
    ghost var between := db.TypeTablesNow();
    r := cache.Get(db, QualifiedType(enumDecl, false, false, false));
    assert unchanged(db.memberList);
    ghost var owned, cached := db.TypeTablesNow(), cache.cached;
    TypesKeptTransitive(before, between, owned);
    if r.Ok? {
      RegisterEnumerationItem(cache, db, declaringType.value, r.value, items, data);
      assert db.TypeTablesNow() == owned && cache.cached == cached;
    }
  }

  /**
   * The declaring type of enumeration_impl: the invalid type when ClassType
   * is void, else type::get<ClassType>().
   */
  method DeclaringType(cache: TypeCache, db: Database, classDecl: Option<TypeDecl>) returns (r: Result<Type>)
    requires cache.Ready(db)
    requires classDecl.Some? ==> WellFormed(classDecl.value) && BasesBelow(classDecl.value, db.typeIdCounter)
    modifies cache, db`typeIdCounter, db`nameToId, db`baseOf, db`upcastOf, db`derivedOf, db`log
    modifies db.typeInfoList, db.baseClassList, db.derivedClassList, db.conversionList
    ensures CacheKept(old(cache.cached), cache.cached)
    ensures TypesKept(old(db.TypeTablesNow()), db.TypeTablesNow()) && db.InfosKept()
    ensures r.Ok? || r.error != TooManyDerivedTypes ==> cache.Ready(db)
    ensures classDecl.None? ==> r == Ok(InvalidType()) && db.log == old(db.log) && cache.cached == old(cache.cached)
    ensures classDecl.Some? && r.Ok? ==>
              Content(classDecl.value.name) in db.nameToId && r.value.id == db.nameToId[Content(classDecl.value.name)]
    ensures classDecl.Some? && Content(classDecl.value.name) in old(cache.cached) ==> r.Ok? && db.log == old(db.log)
  {
    if classDecl.None? {
      TypesKeptReflexive(db.TypeTablesNow());
      return Ok(InvalidType());
    }
    r := cache.Get(db, QualifiedType(classDecl.value, false, false, false));
  }

  /**
   * The enumeration_container of enumeration_impl, its metadata stored,
   * registered under the enum type.
   */
  method RegisterEnumerationItem(cache: TypeCache, db: Database, declaringType: Type, enumType: Type,
                                 items: seq<(string, int)>, data: seq<MetaItem>)
    requires cache.Ready(db) && db.IsRegistered(enumType)
    modifies db`log, db.memberList
    ensures cache.Ready(db) && db.TypeTablesNow() == old(db.TypeTablesNow()) && unchanged(db.typeInfoList)
    ensures db.log == old(db.log) + [EnumerationCall(enumType)]
    ensures db.memberList[enumType.id] == old(db.memberList[enumType.id]).(enumeration := Some(
              EnumerationDesc(declaringType, enumType, items, Merge(map[], data))))
    ensures forall u :: 0 <= u < MAX_TYPE_COUNT && u != enumType.id ==> db.memberList[u] == old(db.memberList[u])
  {
    var metadata := DescriptorMetadata(data);
    db.RegisterEnumeration(enumType, EnumerationDesc(declaringType, enumType, items, metadata));
  }

  /**
   * The class_<T> constructor: type::get<T>() registers T on first use; a
   * non-empty name is then registered as a custom name of T, and the
   * metadata is always registered on T. When T cannot be registered,
   * nothing is registered on it.
   */
  method DeclareClass(cache: TypeCache, db: Database, classDecl: TypeDecl, name: string, data: seq<MetaItem>)
    returns (r: Result<Type>)
    requires cache.Ready(db) && WellFormed(classDecl) && BasesBelow(classDecl, db.typeIdCounter)
    modifies cache, db`typeIdCounter, db`nameToId, db`baseOf, db`upcastOf, db`derivedOf, db`log
    modifies db.typeInfoList, db.baseClassList, db.derivedClassList, db.conversionList
    modifies db`customNameMap, db.memberList
    ensures CacheKept(old(cache.cached), cache.cached)
    ensures TypesKept(old(db.TypeTablesNow()), db.TypeTablesNow()) && db.InfosKept()
    ensures r.Ok? || r.error != TooManyDerivedTypes ==> cache.Ready(db)
    ensures r.Ok? ==> Content(classDecl.name) in db.nameToId && r.value.id == db.nameToId[Content(classDecl.name)]
    ensures r.Ok? ==> |db.log| >= 2 && db.log[|db.log| - 1] == MetadataCall(r.value)
    ensures r.Ok? && name != [] ==> db.log[|db.log| - 2] == CustomNameCall(r.value, name)
    ensures r.Ok? && Content(classDecl.name) in old(cache.cached) ==>
              db.log == old(db.log) + (if name != [] then [CustomNameCall(r.value, name)] else []) + [MetadataCall(r.value)]
    ensures r.Ok? ==> db.customNameMap == old(db.customNameMap) + if name != [] then [(r.value, name)] else []
    ensures r.Ok? ==>
              db.memberList[r.value.id] == old(db.memberList[r.value.id]).(metadata := Merge(old(db.memberList[r.value.id].metadata), data))
    ensures r.Fail? ==> db.customNameMap == old(db.customNameMap)
    ensures r.Ok? ==> forall u :: 0 <= u < MAX_TYPE_COUNT && u != r.value.id ==> db.memberList[u] == old(db.memberList[u])
    ensures r.Fail? ==> forall u :: 0 <= u < MAX_TYPE_COUNT ==> db.memberList[u] == old(db.memberList[u])
  {
    r := cache.Get(db, QualifiedType(classDecl, false, false, false));
    assert unchanged(db.memberList) && db.customNameMap == old(db.customNameMap);
    ghost var owned, cached := db.TypeTablesNow(), cache.cached;
    if r.Ok? {
      NameAndMetadata(cache, db, r.value, name, data);
      assert db.TypeTablesNow() == owned && cache.cached == cached;
    }
  }

  /**
   * What the class_<T> constructor registers once it has T: a non-empty
   * name as a custom name of T, then the metadata on T.
   */
  method NameAndMetadata(cache: TypeCache, db: Database, t: Type, name: string, data: seq<MetaItem>)
    requires cache.Ready(db) && db.IsRegistered(t)
    modifies db`log, db`customNameMap, db.memberList
    ensures cache.Ready(db) && db.TypeTablesNow() == old(db.TypeTablesNow()) && unchanged(db.typeInfoList)
    ensures db.log == old(db.log) + (if name != [] then [CustomNameCall(t, name)] else []) + [MetadataCall(t)]
    ensures db.customNameMap == old(db.customNameMap) + if name != [] then [(t, name)] else []
    ensures db.memberList[t.id] == old(db.memberList[t.id]).(metadata := Merge(old(db.memberList[t.id].metadata), data))
    ensures forall u :: 0 <= u < MAX_TYPE_COUNT && u != t.id ==> db.memberList[u] == old(db.memberList[u])
  {
    if name != [] {
      db.RegisterCustomName(t, name);
    }
    db.RegisterMetadata(t, data);
  }

  /**
   * The owner of a free declaration: type::get<void>(), registered on first
   * use. It is the type the database holds for the name "void", so the
   * declaration lands in the global maps.
   */
  method VoidOwner(cache: TypeCache, db: Database, voidInfo: Token) returns (r: Result<Type>)
    requires cache.Ready(db)
    modifies cache, db`typeIdCounter, db`nameToId, db`baseOf, db`upcastOf, db`derivedOf, db`log
    modifies db.typeInfoList, db.baseClassList, db.derivedClassList, db.conversionList
    ensures db.NamesKept() && db.nameToId.Keys <= old(db.nameToId).Keys + {VOID_NAME}
    ensures r.Ok? || r.error != TooManyDerivedTypes ==> cache.Ready(db)
    ensures r.Ok? ==> VOID_NAME in db.nameToId && r.value.id == db.nameToId[VOID_NAME]
    ensures r.Ok? ==> db.IsRegistered(r.value) && db.ScopeOf(r.value) == Global
    ensures db.propertyList == old(db.propertyList) && db.methodList == old(db.methodList)
    ensures db.globalProperties == old(db.globalProperties) && db.globalMethods == old(db.globalMethods)
    ensures forall t :: 0 <= t < MAX_TYPE_COUNT ==> db.memberList[t] == old(db.memberList[t])
    ensures CacheKept(old(cache.cached), cache.cached)
    ensures TypesKept(old(db.TypeTablesNow()), db.TypeTablesNow()) && db.InfosKept()
    ensures VOID_NAME in old(db.nameToId) ==> db.TypeTablesNow() == old(db.TypeTablesNow())
  {
    r := cache.GetType(db, VoidDecl(voidInfo));
  }

  /**
   * property_ with one accessor: property_impl<void>; the overloads without
   * metadata pass an empty list, those without a policy (policy None)
   * default_property_policy. The property is then found among the global
   * properties.
   */
  method FreeProperty(cache: TypeCache, db: Database, voidInfo: Token, name: string, valueType: Type,
                      accessor: Token, data: seq<MetaItem>, policy: Option<Policy>) returns (r: Result<Type>)
    requires cache.Ready(db)
    modifies cache, db`typeIdCounter, db`nameToId, db`baseOf, db`upcastOf, db`derivedOf, db`log
    modifies db.typeInfoList, db.baseClassList, db.derivedClassList, db.conversionList, db.memberList
    modifies db`globalProperties, db`propertyList
    ensures r.Ok? ==> cache.Ready(db) && VOID_NAME in db.nameToId && r.value.id == db.nameToId[VOID_NAME]
    ensures r.Ok? ==> db.log[|db.log| - 1] == PropertyCall(r.value, name)
    ensures r.Ok? ==>
              var p := if policy.Some? then policy.value else DefaultPropertyPolicy;
              var prop := PropertyDesc(name, r.value, valueType, accessor, None, p, SetterOf(p), Merge(map[], data));
              && db.propertyList == old(db.propertyList) + [prop]
              && FindProperty(name, db.globalProperties, db.propertyList) == Some(prop)
    ensures r.Ok? ==> forall other :: other != name ==>
              FindProperty(other, db.globalProperties, db.propertyList)
              == old(FindProperty(other, db.globalProperties, db.propertyList))
    ensures r.Fail? ==> db.propertyList == old(db.propertyList) && db.globalProperties == old(db.globalProperties)
    ensures db.methodList == old(db.methodList) && db.globalMethods == old(db.globalMethods)
    ensures forall t :: 0 <= t < MAX_TYPE_COUNT ==> db.memberList[t] == old(db.memberList[t])
    ensures CacheKept(old(cache.cached), cache.cached)
    ensures TypesKept(old(db.TypeTablesNow()), db.TypeTablesNow()) && db.InfosKept()
    ensures VOID_NAME in old(db.nameToId) ==> db.TypeTablesNow() == old(db.TypeTablesNow())
  {
    r := VoidOwner(cache, db, voidInfo);
    if r.Ok? {
      PropertyImpl(db, r.value, name, valueType, accessor, data,
                   if policy.Some? then policy.value else DefaultPropertyPolicy);
    }
  }

  /** property_ with a getter and a setter: property_impl<void>, defaults as for FreeProperty. */
  method FreePropertyGetSet(cache: TypeCache, db: Database, voidInfo: Token, name: string, valueType: Type,
                            getter: Token, setter: Token, data: seq<MetaItem>, policy: Option<Policy>)
    returns (r: Result<Type>)
    requires cache.Ready(db)
    modifies cache, db`typeIdCounter, db`nameToId, db`baseOf, db`upcastOf, db`derivedOf, db`log
    modifies db.typeInfoList, db.baseClassList, db.derivedClassList, db.conversionList, db.memberList
    modifies db`globalProperties, db`propertyList
    ensures r.Ok? ==> cache.Ready(db) && VOID_NAME in db.nameToId && r.value.id == db.nameToId[VOID_NAME]
    ensures r.Ok? ==> db.log[|db.log| - 1] == PropertyCall(r.value, name)
    ensures r.Ok? ==>
              var p := if policy.Some? then policy.value else DefaultPropertyPolicy;
              var prop := PropertyDesc(name, r.value, valueType, getter, Some(setter), p, SetterOf(p), Merge(map[], data));
              && db.propertyList == old(db.propertyList) + [prop]
              && FindProperty(name, db.globalProperties, db.propertyList) == Some(prop)
    ensures r.Ok? ==> forall other :: other != name ==>
              FindProperty(other, db.globalProperties, db.propertyList)
              == old(FindProperty(other, db.globalProperties, db.propertyList))
    ensures r.Fail? ==> db.propertyList == old(db.propertyList) && db.globalProperties == old(db.globalProperties)
    ensures db.methodList == old(db.methodList) && db.globalMethods == old(db.globalMethods)
    ensures forall t :: 0 <= t < MAX_TYPE_COUNT ==> db.memberList[t] == old(db.memberList[t])
    ensures CacheKept(old(cache.cached), cache.cached)
    ensures TypesKept(old(db.TypeTablesNow()), db.TypeTablesNow()) && db.InfosKept()
    ensures VOID_NAME in old(db.nameToId) ==> db.TypeTablesNow() == old(db.TypeTablesNow())
  {
    r := VoidOwner(cache, db, voidInfo);
    if r.Ok? {
      PropertyGetSetImpl(db, r.value, name, valueType, getter, setter, data,
                         if policy.Some? then policy.value else DefaultPropertyPolicy);
    }
  }

  /** property_readonly_: property_readonly_impl<void>, defaults as for FreeProperty. */
  method FreePropertyReadonly(cache: TypeCache, db: Database, voidInfo: Token, name: string, valueType: Type,
                              accessor: Token, data: seq<MetaItem>, policy: Option<Policy>) returns (r: Result<Type>)
    requires cache.Ready(db)
    modifies cache, db`typeIdCounter, db`nameToId, db`baseOf, db`upcastOf, db`derivedOf, db`log
    modifies db.typeInfoList, db.baseClassList, db.derivedClassList, db.conversionList, db.memberList
    modifies db`globalProperties, db`propertyList
    ensures r.Ok? ==> cache.Ready(db) && VOID_NAME in db.nameToId && r.value.id == db.nameToId[VOID_NAME]
    ensures r.Ok? ==> db.log[|db.log| - 1] == PropertyCall(r.value, name)
    ensures r.Ok? ==>
              var p := if policy.Some? then policy.value else DefaultPropertyPolicy;
              var prop := PropertyDesc(name, r.value, valueType, accessor, None, p, ReadOnly, Merge(map[], data));
              && db.propertyList == old(db.propertyList) + [prop]
              && FindProperty(name, db.globalProperties, db.propertyList) == Some(prop)
    ensures r.Ok? ==> forall other :: other != name ==>
              FindProperty(other, db.globalProperties, db.propertyList)
              == old(FindProperty(other, db.globalProperties, db.propertyList))
    ensures r.Fail? ==> db.propertyList == old(db.propertyList) && db.globalProperties == old(db.globalProperties)
    ensures db.methodList == old(db.methodList) && db.globalMethods == old(db.globalMethods)
    ensures forall t :: 0 <= t < MAX_TYPE_COUNT ==> db.memberList[t] == old(db.memberList[t])
    ensures CacheKept(old(cache.cached), cache.cached)
    ensures TypesKept(old(db.TypeTablesNow()), db.TypeTablesNow()) && db.InfosKept()
    ensures VOID_NAME in old(db.nameToId) ==> db.TypeTablesNow() == old(db.TypeTablesNow())
  {
    r := VoidOwner(cache, db, voidInfo);
    if r.Ok? {
      PropertyReadonlyImpl(db, r.value, name, valueType, accessor, data,
                           if policy.Some? then policy.value else DefaultPropertyPolicy);
    }
  }

  /**
   * method_: method_impl<void>; the overloads without metadata pass an empty
   * list, those without a policy (policy None) default_invoke. Overload
   * lookup among the global methods then finds the method, unless one of
   * the same name and signature was there first.
   */
  method FreeMethod(cache: TypeCache, db: Database, voidInfo: Token, name: string, returnType: Type,
                    parameterTypes: seq<Type>, invoker: Token, data: seq<MetaItem>, policy: Option<Policy>)
    returns (r: Result<Type>)
    requires cache.Ready(db)
    modifies cache, db`typeIdCounter, db`nameToId, db`baseOf, db`upcastOf, db`derivedOf, db`log
    modifies db.typeInfoList, db.baseClassList, db.derivedClassList, db.conversionList, db.memberList
    modifies db`globalMethods, db`methodList
    ensures r.Ok? ==> cache.Ready(db) && VOID_NAME in db.nameToId && r.value.id == db.nameToId[VOID_NAME]
    ensures r.Ok? ==> db.log[|db.log| - 1] == MethodCall(r.value, name)
    ensures r.Ok? ==>
              var p := if policy.Some? then policy.value else DefaultInvoke;
              var m := MethodDesc(name, r.value, returnType, parameterTypes, invoker, p, Merge(map[], data));
              var before := old(FindMethodBySignature(name, parameterTypes, db.globalMethods, db.methodList));
              && FindMethodBySignature(name, parameterTypes, db.globalMethods, db.methodList)
                 == (if before.Some? then before else Some(m))
              && db.methodList == (if before.Some? then old(db.methodList) else old(db.methodList) + [m])
              && (before.Some? ==> db.globalMethods == old(db.globalMethods))
    ensures r.Ok? ==> forall other, args :: (other, args) != (name, parameterTypes) ==>
              FindMethodBySignature(other, args, db.globalMethods, db.methodList)
              == old(FindMethodBySignature(other, args, db.globalMethods, db.methodList))
    ensures r.Fail? ==> db.methodList == old(db.methodList) && db.globalMethods == old(db.globalMethods)
    ensures db.propertyList == old(db.propertyList) && db.globalProperties == old(db.globalProperties)
    ensures forall t :: 0 <= t < MAX_TYPE_COUNT ==> db.memberList[t] == old(db.memberList[t])
    ensures CacheKept(old(cache.cached), cache.cached)
    ensures TypesKept(old(db.TypeTablesNow()), db.TypeTablesNow()) && db.InfosKept()
    ensures VOID_NAME in old(db.nameToId) ==> db.TypeTablesNow() == old(db.TypeTablesNow())
  {
    ghost var before := db.TypeTablesNow();
    r := VoidOwner(cache, db, voidInfo);
    ghost var owned, cached := db.TypeTablesNow(), cache.cached;
    assert TypesKept(before, owned) && CacheKept(old(cache.cached), cached);
    if r.Ok? {
      MethodImpl(db, r.value, name, returnType, parameterTypes, invoker, data,
                 if policy.Some? then policy.value else DefaultInvoke);
      assert db.MethodsIn(db.ScopeOf(r.value)) == db.globalMethods;
      assert cache.cached == cached;
      assert db.TypeTablesNow() == owned;
    }
  }

  /**
   * enumeration_: enumeration_impl<void>. ClassType is void, so the
   * declaring type is the invalid type and type::get<void>() is not used.
   */
  method FreeEnumeration(cache: TypeCache, db: Database, enumDecl: TypeDecl, items: seq<(string, int)>,
                         data: seq<MetaItem>) returns (r: Result<Type>)
    requires cache.Ready(db) && WellFormed(enumDecl) && BasesBelow(enumDecl, db.typeIdCounter)
    modifies cache, db`typeIdCounter, db`nameToId, db`baseOf, db`upcastOf, db`derivedOf, db`log
    modifies db.typeInfoList, db.baseClassList, db.derivedClassList, db.conversionList, db.memberList
    ensures CacheKept(old(cache.cached), cache.cached)
    ensures TypesKept(old(db.TypeTablesNow()), db.TypeTablesNow()) && db.InfosKept()
    ensures r.Ok? || r.error != TooManyDerivedTypes ==> cache.Ready(db)
    ensures r.Ok? ==> Content(enumDecl.name) in db.nameToId && r.value.id == db.nameToId[Content(enumDecl.name)]
    ensures r.Ok? ==> |db.log| > 0 && db.log[|db.log| - 1] == EnumerationCall(r.value)
    ensures r.Ok? && Content(enumDecl.name) in old(cache.cached) ==> db.log == old(db.log) + [EnumerationCall(r.value)]
    ensures r.Ok? ==>
              db.memberList[r.value.id] == old(db.memberList[r.value.id]).(enumeration := Some(
                EnumerationDesc(InvalidType(), r.value, items, Merge(map[], data))))
    ensures r.Ok? ==> !db.memberList[r.value.id].enumeration.value.declaringType.IsValid()
    ensures forall u :: 0 <= u < MAX_TYPE_COUNT && (r.Fail? || u != r.value.id) ==> db.memberList[u] == old(db.memberList[u])
  {
    r := EnumerationImpl(cache, db, None, enumDecl, items, data);
  }
}
