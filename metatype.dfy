/**
 * The registering half of src/rttr/impl/type_impl.h: MetaTypeInfo<T>::get_type,
 * which registers T on first use and keeps the result in a function-local
 * static, raw_type_info<T>, which registers the raw type of T first (or gives
 * the invalid type when T is its own raw type), the `void` specialisation, and
 * type::register_converter_func.
 *
 * A C++ type T appears as a TypeDecl: what MetaTypeInfo<T> passes to
 * register_type. The canonical name is an input (its extraction from the
 * compiler's function signature text is not part of this model), and so are
 * the base list and the compile-time classification.
 */
module MetaType {
  import opened Wrappers
  import opened CStrings
  import opened Types
  import opened Descriptors
  import opened Tables
  import opened ReflectionDatabase

  /**
   * What MetaTypeInfo<T>::get_type passes to register_type for T. raw is the
   * declaration of the raw type of T (T without pointers and qualifiers), or
   * None when T is its own raw type.
   */
  datatype TypeDecl = TypeDecl(
    name: seq<Char>, raw: Option<TypeDecl>, bases: seq<BaseClassInfo>,
    derivedInfoFunc: Token, variantCreateFunc: Token,
    classification: Classification, pointerCount: nat)

  /**
   * A declaration as the compiler produces it: C-string names, and a raw
   * type that differs from T and is its own raw type.
   */
  predicate WellFormed(d: TypeDecl) {
    && IsCString(d.name)
    && (d.raw.Some? ==>
          && IsCString(d.raw.value.name) && d.raw.value.raw.None?
          && Content(d.raw.value.name) != Content(d.name))
  }

  /**
   * MetaTypeInfo<void>: the canonical name "void", no raw type, no bases, a
   * null variant factory, every classification flag false and pointer
   * count 0.
   */
  function VoidDecl(derivedInfoFunc: Token): (d: TypeDecl)
    ensures WellFormed(d) && Content(d.name) == VOID_NAME
    ensures d.raw.None? && d.bases == [] && d.variantCreateFunc == Null
    ensures d.classification == NO_FLAGS && d.pointerCount == 0
  {
    TypeDecl(Terminated(VOID_NAME), None, [], derivedInfoFunc, Null, NO_FLAGS, 0)
  }

  /**
   * A type as written in a signature: an unqualified type plus the const,
   * volatile and reference qualifiers on it.
   */
  datatype QualifiedType = QualifiedType(unqualified: TypeDecl, isConst: bool, isVolatile: bool, isReference: bool)

  /**
   * std::remove_cv<std::remove_reference<T>::type>::type: the type with its
   * reference, const and volatile qualifiers dropped.
   */
  function RemoveCvRef(q: QualifiedType): TypeDecl
  {
    q.unqualified
  }

  /**
   * The signature of a converter function F: its return type, its parameter
   * types, and whether the second parameter is exactly bool&.
   */
  datatype ConverterSignature = ConverterSignature(
    returnType: QualifiedType, params: seq<QualifiedType>, secondIsBoolRef: bool)

  /**
   * The static_asserts of register_converter_func: two parameters, a
   * non-void target type, and bool& as the second parameter.
   */
  predicate IsConverterSignature(sig: ConverterSignature) {
    && |sig.params| == 2
    && IsCString(RemoveCvRef(sig.returnType).name) && Content(RemoveCvRef(sig.returnType).name) != VOID_NAME
    && sig.secondIsBoolRef
  }

  /** Every cached type is the one the name table has for that name. */
  predicate CacheAgrees(cached: map<seq<Char>, Type>, nameToId: map<seq<Char>, TypeId>) {
    forall n :: n in cached ==> n in nameToId && cached[n] == Type(nameToId[n])
  }

  /** The statics once written are never rewritten: every earlier entry is still there, unchanged. */
  predicate CacheKept(before: map<seq<Char>, Type>, after: map<seq<Char>, Type>) {
    forall n :: n in before ==> n in after && after[n] == before[n]
  }

  /** A cache agreeing with a name table agrees with every table that keeps its names. */
  lemma CacheAgreesLater(cached: map<seq<Char>, Type>, names: map<seq<Char>, TypeId>, later: map<seq<Char>, TypeId>,
                         key: seq<Char>, t: Type)
    requires CacheAgrees(cached, names)
    requires forall n :: n in names ==> n in later && later[n] == names[n]
    requires key in later && later[key] == t.id
    ensures CacheAgrees(cached, later) && CacheAgrees(cached[key := t], later)
  {
  }

  /** The bases of T and of its raw type are types among the first counter ids. */
  predicate BasesBelow(d: TypeDecl, counter: nat) {
    && (forall k :: 0 <= k < |d.bases| ==> 1 <= d.bases[k].baseType.id <= counter)
    && (d.raw.Some? ==> forall k :: 0 <= k < |d.raw.value.bases| ==> 1 <= d.raw.value.bases[k].baseType.id <= counter)
  }

  /** Registered types stay registered as the counter grows. */
  lemma BasesBelowLater(d: TypeDecl, counter: nat, later: nat)
    requires BasesBelow(d, counter) && counter <= later
    ensures BasesBelow(d, later)
  {
  }

  /**
   * The function-local statics of every MetaTypeInfo<T>::get_type, keyed by
   * the text of T's canonical name.
   */
  class TypeCache {
    var cached: map<seq<Char>, Type>

    constructor ()
      ensures cached == map[]
    {
      cached := map[];
    }

    /** Every cached type is the one the database has for that name. */
    ghost predicate Consistent(db: Database)
      reads this, db`nameToId
    {
      CacheAgrees(cached, db.nameToId)
    }

    /** The database keeps its invariant and the cache agrees with it. */
    ghost predicate Ready(db: Database)
      reads this, db, db.Tables()
    {
      db.Valid() && Consistent(db)
    }

    /**
     * raw_type_info<T>::get_type, once T is registered: the id of the raw
     * type, or 0 (the invalid type) when T is its own raw type.
     */
    ghost function RawId(db: Database, d: TypeDecl): TypeId
      reads db`nameToId
      requires WellFormed(d) && (d.raw.Some? ==> Content(d.raw.value.name) in db.nameToId)
    {
      if d.raw.None? then 0 else db.nameToId[Content(d.raw.value.name)]
    }

    /** The name registering the raw type of d may add. */
    static function RawNames(d: TypeDecl): set<seq<Char>>
      requires WellFormed(d)
    {
      if d.raw.Some? then {Content(d.raw.value.name)} else {}
    }

    /**
     * MetaTypeInfo<T>::get_type: the first call registers the raw type of T
     * (or uses the invalid type when T is its own raw type) and then T, and
     * keeps the result; every later call returns the kept type and makes no
     * call into the database.
     */
    method GetType(db: Database, d: TypeDecl) returns (r: Result<Type>)
      requires Ready(db) && WellFormed(d) && BasesBelow(d, db.typeIdCounter)
      modifies this, db`typeIdCounter, db`nameToId, db`baseOf, db`upcastOf, db`derivedOf, db`log
      modifies db.typeInfoList, db.baseClassList, db.derivedClassList, db.conversionList
      decreases d, 2
      ensures db.nameToId.Keys <= old(db.nameToId).Keys + {Content(d.name)} + RawNames(d)
      ensures r.Ok? || r.error != TooManyDerivedTypes ==> Ready(db)
      ensures Content(d.name) in old(cached) ==>
                && r == Ok(old(cached)[Content(d.name)]) && db.log == old(db.log)
                && cached == old(cached) && db.TypeTablesUnchanged()
      ensures CacheKept(old(cached), cached)
      ensures TypesKept(old(db.TypeTablesNow()), db.TypeTablesNow()) && db.InfosKept()
      ensures Content(d.name) in old(db.nameToId) && d.raw.None? ==> db.TypeTablesNow() == old(db.TypeTablesNow())
      ensures Content(d.name) !in old(cached) && r.Ok? ==> EndsWith(db.log, RegisterTypeCall(Content(d.name)))
      ensures r.Ok? ==> r.value.IsValid() && Content(d.name) in cached && cached[Content(d.name)] == r.value
      ensures r.Ok? ==> Content(d.name) in db.nameToId && db.nameToId[Content(d.name)] == r.value.id
      ensures r.Ok? && Content(d.name) !in old(db.nameToId) ==>
                && (d.raw.Some? ==> Content(d.raw.value.name) in db.nameToId)
                && db.Record(r.value.id) == RegisteredRecord(d, RawId(db, d))
    {
      var key := Content(d.name);
      if key in cached {
        TypesKeptReflexive(db.TypeTablesNow());
        return Ok(cached[key]);
      }
      r := FirstUse(db, d);
    }

    /**
     * type::get<T>(): MetaTypeInfo of T with its reference, const and
     * volatile qualifiers dropped. A type already cached costs no call into
     * the database; a type that is its own raw type and is already known
     * leaves the type tables as they were.
     */
    method Get(db: Database, q: QualifiedType) returns (r: Result<Type>)
      requires Ready(db) && WellFormed(RemoveCvRef(q)) && BasesBelow(RemoveCvRef(q), db.typeIdCounter)
      modifies this, db`typeIdCounter, db`nameToId, db`baseOf, db`upcastOf, db`derivedOf, db`log
      modifies db.typeInfoList, db.baseClassList, db.derivedClassList, db.conversionList
      ensures r.Ok? || r.error != TooManyDerivedTypes ==> Ready(db)
      ensures r.Ok? ==> var name := Content(RemoveCvRef(q).name);
                        name in db.nameToId && r.value.id == db.nameToId[name] && db.IsRegistered(r.value)
      ensures Content(RemoveCvRef(q).name) in old(cached) ==> r.Ok? && db.log == old(db.log)
      ensures CacheKept(old(cached), cached)
      ensures TypesKept(old(db.TypeTablesNow()), db.TypeTablesNow()) && db.InfosKept()
      ensures Content(RemoveCvRef(q).name) in old(db.nameToId) && RemoveCvRef(q).raw.None? ==>
                db.TypeTablesNow() == old(db.TypeTablesNow())
    {
      r := GetType(db, RemoveCvRef(q));
    }

    /** The first call of MetaTypeInfo<T>::get_type: the raw type of T, then T itself. */
    method FirstUse(db: Database, d: TypeDecl) returns (r: Result<Type>)
      requires Ready(db) && WellFormed(d) && BasesBelow(d, db.typeIdCounter)
      modifies this, db`typeIdCounter, db`nameToId, db`baseOf, db`upcastOf, db`derivedOf, db`log
      modifies db.typeInfoList, db.baseClassList, db.derivedClassList, db.conversionList
      decreases d, 1
      ensures db.nameToId.Keys <= old(db.nameToId).Keys + {Content(d.name)} + RawNames(d)
      ensures r.Ok? || r.error != TooManyDerivedTypes ==> Ready(db)
      ensures r.Ok? ==> EndsWith(db.log, RegisterTypeCall(Content(d.name)))
      ensures r.Ok? ==> r.value.IsValid() && Content(d.name) in cached && cached[Content(d.name)] == r.value
      ensures r.Ok? ==> Content(d.name) in db.nameToId && db.nameToId[Content(d.name)] == r.value.id
      ensures r.Ok? && Content(d.name) !in old(db.nameToId) ==>
                && (d.raw.Some? ==> Content(d.raw.value.name) in db.nameToId)
                && db.Record(r.value.id) == RegisteredRecord(d, RawId(db, d))
      ensures CacheKept(old(cached), cached)
      ensures TypesKept(old(db.TypeTablesNow()), db.TypeTablesNow()) && db.InfosKept()
      ensures Content(d.name) in old(db.nameToId) && d.raw.None? ==> db.TypeTablesNow() == old(db.TypeTablesNow())
    {
      ghost var before := db.TypeTablesNow();
      var raw := GetRawType(db, d);
      if raw.Fail? {
        return raw;
      }
      ghost var between, log := db.TypeTablesNow(), db.log;
      r := RegisterDecl(db, d, raw.value);
      EndsWithAppended(log, RegisterTypeCall(Content(d.name)));
      TypesKeptTransitive(before, between, db.TypeTablesNow());
    }

    /**
     * raw_type_info<T>::get_type: the invalid type when T is its own raw
     * type, otherwise MetaTypeInfo of the raw type.
     */
    method GetRawType(db: Database, d: TypeDecl) returns (r: Result<Type>)
      requires Ready(db) && WellFormed(d) && BasesBelow(d, db.typeIdCounter)
      modifies this, db`typeIdCounter, db`nameToId, db`baseOf, db`upcastOf, db`derivedOf, db`log
      modifies db.typeInfoList, db.baseClassList, db.derivedClassList, db.conversionList
      decreases d, 0
      ensures db.nameToId.Keys <= old(db.nameToId).Keys + RawNames(d)
      ensures BasesBelow(d, db.typeIdCounter)
      ensures Content(d.name) !in old(db.nameToId) ==> Content(d.name) !in db.nameToId
      ensures r.Ok? || r.error != TooManyDerivedTypes ==> Ready(db)
      ensures d.raw.None? ==> r == Ok(InvalidType()) && db.log == old(db.log) && cached == old(cached)
      ensures r.Ok? ==> d.raw.Some? ==> Content(d.raw.value.name) in db.nameToId
      ensures r.Ok? ==> r.value.id == RawId(db, d)
      ensures CacheKept(old(cached), cached)
      ensures TypesKept(old(db.TypeTablesNow()), db.TypeTablesNow()) && db.InfosKept()
      ensures RawNames(d) <= old(db.nameToId).Keys ==> db.TypeTablesNow() == old(db.TypeTablesNow())
    {
      if d.raw.None? {
        TypesKeptReflexive(db.TypeTablesNow());
        return Ok(InvalidType());
      }
      ghost var counter := db.typeIdCounter;
      r := GetType(db, d.raw.value);
      BasesBelowLater(d, counter, db.typeIdCounter);
    }

    /** The record register_type leaves for a new T whose raw type has the given id. */
    static function RegisteredRecord(d: TypeDecl, rawId: TypeId): TypeRecord
      requires WellFormed(d)
    {
      TypeRecord(TypeInfo(Content(d.name), rawId, d.classification, d.pointerCount, d.variantCreateFunc, d.derivedInfoFunc),
                 NO_MEMBERS, BaseIds(d.bases), Casts(d.bases), [])
    }

    /** The register_type call of MetaTypeInfo<T>::get_type, its raw type already known. */
    method RegisterDecl(db: Database, d: TypeDecl, rawType: Type) returns (r: Result<Type>)
      requires db.Valid() && Consistent(db) && WellFormed(d) && BasesBelow(d, db.typeIdCounter)
      requires d.raw.Some? ==> Content(d.raw.value.name) in db.nameToId
      requires rawType.id == RawId(db, d)
      modifies this, db`typeIdCounter, db`nameToId, db`baseOf, db`upcastOf, db`derivedOf, db`log
      modifies db.typeInfoList, db.baseClassList, db.derivedClassList, db.conversionList
      ensures db.nameToId.Keys <= old(db.nameToId).Keys + {Content(d.name)}
      ensures r.Ok? || r.error != TooManyDerivedTypes ==> db.Valid() && Consistent(db)
      ensures db.log == old(db.log) + [RegisterTypeCall(Content(d.name))]
      ensures r.Ok? ==> r.value.IsValid() && Content(d.name) in cached && cached[Content(d.name)] == r.value
      ensures r.Ok? ==> Content(d.name) in db.nameToId && db.nameToId[Content(d.name)] == r.value.id
      ensures r.Ok? && Content(d.name) !in old(db.nameToId) ==>
                && db.Record(r.value.id) == RegisteredRecord(d, rawType.id)
                && (forall t :: 0 <= t < MAX_TYPE_COUNT && t != r.value.id ==>
                      && db.typeInfoList[t] == old(db.typeInfoList[t])
                      && db.baseOf[t] == old(db.baseOf[t]) && db.upcastOf[t] == old(db.upcastOf[t]))
                && (forall t :: 0 <= t < MAX_TYPE_COUNT ==>
                      db.derivedOf[t] == old(db.derivedOf[t]) + Repeat(r.value.id, Occurrences(d.bases, t)))
      ensures CacheKept(old(cached), cached)
      ensures TypesKept(old(db.TypeTablesNow()), db.TypeTablesNow()) && db.InfosKept()
      ensures Content(d.name) in old(db.nameToId) ==> db.TypeTablesNow() == old(db.TypeTablesNow())
    {
      r := db.RegisterType(d.name, rawType, d.bases, d.derivedInfoFunc, d.variantCreateFunc,
                           d.classification, d.pointerCount);
      assert r.Ok? || r.error != TooManyDerivedTypes ==> db.Valid();
      if r.Ok? {
        CacheAgreesLater(cached, old(db.nameToId), db.nameToId, Content(d.name), r.value);
        cached := cached[Content(d.name) := r.value];
      }
    }
  }

  /**
   * type::register_converter_func: the converter goes to the converter list
   * of the first parameter's type, cv and reference stripped (registered on
   * first use), and records as its target the return type, cv and
   * reference stripped. No other record changes; when the source type
   * cannot be registered, no record changes at all.
   */
  method RegisterConverterFunc(cache: TypeCache, db: Database, sig: ConverterSignature, func: Token)
    returns (r: Result<Type>)
    requires IsConverterSignature(sig)
    requires cache.Ready(db)
    requires WellFormed(RemoveCvRef(sig.params[0])) && BasesBelow(RemoveCvRef(sig.params[0]), db.typeIdCounter)
    modifies cache, db`typeIdCounter, db`nameToId, db`baseOf, db`upcastOf, db`derivedOf, db`log
    modifies db.typeInfoList, db.baseClassList, db.derivedClassList, db.conversionList, db.memberList
    ensures db.NamesKept() && CacheKept(old(cache.cached), cache.cached)
    ensures TypesKept(old(db.TypeTablesNow()), db.TypeTablesNow()) && db.InfosKept()
    ensures r.Ok? || r.error != TooManyDerivedTypes ==> cache.Ready(db)
    ensures r.Ok? ==> Content(RemoveCvRef(sig.params[0]).name) in db.nameToId
                      && r.value.id == db.nameToId[Content(RemoveCvRef(sig.params[0]).name)]
    ensures r.Ok? ==> db.log[|db.log| - 1] == ConverterCall(r.value)
    ensures r.Ok? ==>
              db.memberList[r.value.id] == old(db.memberList[r.value.id]).(converters :=
                old(db.memberList[r.value.id].converters) +
                [Converter(Content(RemoveCvRef(sig.params[0]).name), Content(RemoveCvRef(sig.returnType).name), func)])
    ensures forall u :: 0 <= u < MAX_TYPE_COUNT && (r.Fail? || u != r.value.id) ==> db.memberList[u] == old(db.memberList[u])
  {
    var source := RemoveCvRef(sig.params[0]);
    var target := RemoveCvRef(sig.returnType);
    r := cache.GetType(db, source);
    if r.Ok? {
      db.RegisterTypeConverter(r.value, Converter(Content(source.name), Content(target.name), func));
    }
  }
}
