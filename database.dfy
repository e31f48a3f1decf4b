/**
 * The reflection database of src/rttr/detail/reflection_database_p.h: a
 * global id counter, the name-to-id table, fixed-capacity per-id tables,
 * flat base/derived/upcast arrays with 50 slots per type, per-class data,
 * the global property and method maps and the containers that own every
 * registered property and method.
 *
 * The per-id tables that register_type fills together (name, raw type, the
 * eight flags, pointer count, variant and derived-info functions) are one
 * array of TypeInfo records; those the member registrations fill (metadata,
 * class data, destructor, enumeration, converters) are one array of
 * TypeMembers records. The three flat inheritance arrays are kept as they are.
 *
 * The bodies of register_type, of the register_* entry points and of the
 * lookups over the tables live in .cpp files that are not part of this model;
 * the methods below follow the declarations, the container kinds and the
 * capacities. One database object is used sequentially.
 */
module ReflectionDatabase {
  import opened Wrappers
  import opened CStrings
  import opened Types
  import opened Descriptors
  import opened Tables

  /** The canonical name of `void`; declarations owned by it are free (global). */
  const VOID_NAME: seq<Char> := [0x76, 0x6f, 0x69, 0x64]

  /** Where a member registration lands: the global maps or one class's data. */
  datatype Scope = Global | InClass(owner: TypeId)

  /** One call into the database, in the order the registration code issues them. */
  datatype Call =
    | RegisterTypeCall(name: seq<Char>)
    | ConstructorCall(owner: Type)
    | DestructorCall(owner: Type)
    | PropertyCall(owner: Type, propertyName: string)
    | MethodCall(owner: Type, methodName: string)
    | EnumerationCall(owner: Type)
    | CustomNameCall(owner: Type, customName: string)
    | MetadataCall(owner: Type)
    | ConverterCall(owner: Type)

  /** The last call in a log is c. */
  predicate EndsWith(log: seq<Call>, c: Call) {
    |log| > 0 && log[|log| - 1] == c
  }

  /** Appending c to a log makes c its last call. */
  lemma EndsWithAppended(log: seq<Call>, c: Call)
    ensures EndsWith(log + [c], c)
  {
  }

  /** What register_type records for an id in the per-id tables. */
  datatype TypeInfo = TypeInfo(
    name: seq<Char>, rawType: TypeId, classification: Classification, pointerCount: nat,
    variantCreateFunc: Token, derivedInfoFunc: Token)

  const BLANK_INFO := TypeInfo([], 0, NO_FLAGS, 0, Null, Null)

  /** What the member registrations record for an id in the per-id tables. */
  datatype TypeMembers = TypeMembers(
    metadata: Metadata, classData: Option<ClassData>, destructor: Option<DestructorDesc>,
    enumeration: Option<EnumerationDesc>, converters: seq<Converter>)

  const NO_MEMBERS := TypeMembers(map[], None, None, None, [])

  /** Everything the tables hold for one id, read across all of them. */
  datatype TypeRecord = TypeRecord(
    info: TypeInfo, members: TypeMembers,
    baseTypes: seq<TypeId>, upcasts: seq<Token>, derivedTypes: seq<TypeId>)

  /** What the tables hold for an id nobody has registered. */
  const BLANK_RECORD := TypeRecord(BLANK_INFO, NO_MEMBERS, [], [], [])

  /** The content of slot k of a window holding the list l, padded with empty. */
  function SlotValue<T>(l: seq<T>, k: nat, empty: T): T {
    if k < |l| then l[k] else empty
  }

  /** Slot k of type t of a flat array holds the window of l, padded with empty. */
  ghost predicate WindowHolds<T>(list: array<T>, t: TypeId, l: seq<T>, empty: T)
    reads list
    requires list.Length == MAX_TYPE_COUNT * MAX_INHERIT_TYPES_COUNT && t < MAX_TYPE_COUNT
  {
    forall k :: 0 <= k < MAX_INHERIT_TYPES_COUNT ==> list[Slot(t, k)] == SlotValue(l, k, empty)
  }

  /** A flat array of empty slots holds the empty list in every window. */
  lemma BlankWindows<T>(list: array<T>, empty: T)
    requires list.Length == MAX_TYPE_COUNT * MAX_INHERIT_TYPES_COUNT
    requires forall i :: 0 <= i < list.Length ==> list[i] == empty
    ensures forall t :: 0 <= t < MAX_TYPE_COUNT ==> WindowHolds(list, t, [], empty)
  {
  }

  /**
   * Reads the zero-terminated window of type t: the slots up to the first
   * empty one, or all 50. This is how the list a window holds is recovered
   * (the derived list of a base, to back-fill a new type after its end).
   */
  method ReadWindow<T(==)>(list: array<T>, t: TypeId, ghost l: seq<T>, empty: T) returns (r: seq<T>)
    requires list.Length == MAX_TYPE_COUNT * MAX_INHERIT_TYPES_COUNT && t < MAX_TYPE_COUNT
    requires |l| <= MAX_INHERIT_TYPES_COUNT && WindowHolds(list, t, l, empty)
    requires forall k :: 0 <= k < |l| ==> l[k] != empty
    ensures r == l
  {
    r := [];
    var k := 0;
    while k < MAX_INHERIT_TYPES_COUNT && list[Slot(t, k)] != empty
      invariant k <= |l| && r == l[..k]
    {
      r := r + [list[Slot(t, k)]];
      k := k + 1;
    }
    assert k == |l|;
  }

  /** The ids of a base list, in order. */
  function BaseIds(bases: seq<BaseClassInfo>): (r: seq<TypeId>)
    ensures |r| == |bases|
    ensures forall k :: 0 <= k < |bases| ==> r[k] == bases[k].baseType.id
  {
    if bases == [] then [] else BaseIds(bases[..|bases| - 1]) + [bases[|bases| - 1].baseType.id]
  }

  /** The upcast functions of a base list, in order. */
  function Casts(bases: seq<BaseClassInfo>): (r: seq<Token>)
    ensures |r| == |bases|
    ensures forall k :: 0 <= k < |bases| ==> r[k] == bases[k].castFunc
  {
    if bases == [] then [] else Casts(bases[..|bases| - 1]) + [bases[|bases| - 1].castFunc]
  }

  /** How often t occurs as a base in the list. */
  function Occurrences(bases: seq<BaseClassInfo>, t: TypeId): nat
  {
    if bases == [] then 0
    else Occurrences(bases[..|bases| - 1], t) + (if bases[|bases| - 1].baseType.id == t then 1 else 0)
  }

  /** n copies of id. */
  function Repeat(id: TypeId, n: nat): (r: seq<TypeId>)
    ensures |r| == n && forall k :: 0 <= k < n ==> r[k] == id
  {
    seq(n, _ => id)
  }

  /** A base list prefix never holds more copies of t than the whole list. */
  lemma {:induction false} OccurrencesOfPrefix(bases: seq<BaseClassInfo>, i: nat, t: TypeId)
    requires i <= |bases|
    ensures Occurrences(bases[..i], t) <= Occurrences(bases, t)
  {
    if i < |bases| {
      assert bases[..|bases| - 1][..i] == bases[..i];
      OccurrencesOfPrefix(bases[..|bases| - 1], i, t);
    } else {
      assert bases[..i] == bases;
    }
  }

  /** A type that is no base in the list occurs zero times. */
  lemma {:induction false} OccurrencesOfNonBase(bases: seq<BaseClassInfo>, t: TypeId)
    requires forall k :: 0 <= k < |bases| ==> bases[k].baseType.id != t
    ensures Occurrences(bases, t) == 0
  {
    if bases != [] {
      OccurrencesOfNonBase(bases[..|bases| - 1], t);
    }
  }

  /** Every derived list can take the new type once per occurrence as a base. */
  ghost predicate DerivedRoom(derivedOf: seq<seq<TypeId>>, bases: seq<BaseClassInfo>) {
    forall t :: 0 <= t < |derivedOf| ==> |derivedOf[t]| + Occurrences(bases, t) <= MAX_INHERIT_TYPES_COUNT
  }

  /** Room for a base list leaves room for each of its prefixes. */
  lemma DerivedRoomOfPrefix(derivedOf: seq<seq<TypeId>>, bases: seq<BaseClassInfo>, i: nat)
    requires i <= |bases|
    ensures DerivedRoom(derivedOf, bases) ==> DerivedRoom(derivedOf, bases[..i])
  {
    if DerivedRoom(derivedOf, bases) {
      forall t | 0 <= t < |derivedOf|
        ensures |derivedOf[t]| + Occurrences(bases[..i], t) <= MAX_INHERIT_TYPES_COUNT
      {
        OccurrencesOfPrefix(bases, i, t);
      }
    }
  }

  /** A derived list extended by copies of a non-zero id holds no zero entry. */
  lemma NoZeroEntries(l: seq<TypeId>, id: TypeId, n: nat)
    requires id != 0 && forall k :: 0 <= k < |l| ==> l[k] != 0
    ensures forall k :: 0 <= k < |l + Repeat(id, n)| ==> (l + Repeat(id, n))[k] != 0
  {
  }

  /**
   * The window lists of type t fit their 50 slots and list ids in 1..counter;
   * those of id 0 and of the ids beyond counter are empty.
   */
  ghost predicate ListsFitAt(counter: nat, base: seq<TypeId>, upcast: seq<Token>, derived: seq<TypeId>, t: TypeId)
  {
    && |base| <= MAX_INHERIT_TYPES_COUNT && |upcast| == |base|
    && |derived| <= MAX_INHERIT_TYPES_COUNT
    && (forall k :: 0 <= k < |base| ==> 1 <= base[k] <= counter)
    && (forall k :: 0 <= k < |derived| ==> 1 <= derived[k] <= counter)
    && ((t == 0 || counter < t) ==> base == [] && derived == [])
  }

  /** Every window list fits, for every id. */
  ghost predicate WindowListsFit(counter: nat, baseOf: seq<seq<TypeId>>, upcastOf: seq<seq<Token>>,
                                 derivedOf: seq<seq<TypeId>>)
  {
    |baseOf| == MAX_TYPE_COUNT && |upcastOf| == MAX_TYPE_COUNT && |derivedOf| == MAX_TYPE_COUNT &&
    forall t :: 0 <= t < MAX_TYPE_COUNT ==> ListsFitAt(counter, baseOf[t], upcastOf[t], derivedOf[t], t)
  }

  /**
   * Linking the bases of the new id, whose lists are still empty, keeps the
   * window lists fitting, given that every derived window kept room.
   */
  lemma LinkKeepsListsFit(id: TypeId, b0: seq<seq<TypeId>>, u0: seq<seq<Token>>, d0: seq<seq<TypeId>>,
                          bases: seq<BaseClassInfo>, d1: seq<seq<TypeId>>)
    requires WindowListsFit(id, b0, u0, d0) && 0 < id < MAX_TYPE_COUNT
    requires |bases| <= MAX_INHERIT_TYPES_COUNT
    requires forall k :: 0 <= k < |bases| ==> 0 < bases[k].baseType.id < id
    requires |d1| == MAX_TYPE_COUNT && DerivedRoom(d0, bases)
    requires forall t :: 0 <= t < MAX_TYPE_COUNT ==> d1[t] == d0[t] + Repeat(id, Occurrences(bases, t))
    ensures WindowListsFit(id, b0[id := BaseIds(bases)], u0[id := Casts(bases)], d1)
  {
    forall t | 0 <= t < MAX_TYPE_COUNT
      ensures ListsFitAt(id, b0[id := BaseIds(bases)][t], u0[id := Casts(bases)][t], d1[t], t)
    {
      LinkFitsAt(id, bases, b0[t], u0[t], d0[t], t);
    }
  }

  /**
   * The lists of one type t after linking the new id: the base lists of the
   * new id are its bases, and t's derived list gains the new id once per
   * occurrence of t among those bases.
   */
  lemma LinkFitsAt(id: TypeId, bases: seq<BaseClassInfo>, base: seq<TypeId>, upcast: seq<Token>,
                   derived: seq<TypeId>, t: TypeId)
    requires ListsFitAt(id, base, upcast, derived, t) && 0 < id
    requires |bases| <= MAX_INHERIT_TYPES_COUNT
    requires forall k :: 0 <= k < |bases| ==> 0 < bases[k].baseType.id < id
    requires |derived| + Occurrences(bases, t) <= MAX_INHERIT_TYPES_COUNT
    ensures ListsFitAt(id, if t == id then BaseIds(bases) else base, if t == id then Casts(bases) else upcast,
                       derived + Repeat(id, Occurrences(bases, t)), t)
  {
    var n := Occurrences(bases, t);
    if t == 0 || id <= t {
      OccurrencesOfNonBase(bases, t);
    }
    if t == id {
      assert ListsFitAt(id, BaseIds(bases), Casts(bases), derived, t);
      FitAfterAppend(id, BaseIds(bases), Casts(bases), derived, t, n);
    } else {
      FitAfterAppend(id, base, upcast, derived, t, n);
    }
  }

  /** Appending n copies of id to a derived list with room keeps it fitting. */
  lemma FitAfterAppend(id: TypeId, base: seq<TypeId>, upcast: seq<Token>, derived: seq<TypeId>, t: TypeId, n: nat)
    requires ListsFitAt(id, base, upcast, derived, t) && |derived| + n <= MAX_INHERIT_TYPES_COUNT && 1 <= id
    requires (t == 0 || id < t) ==> n == 0
    ensures ListsFitAt(id, base, upcast, derived + Repeat(id, n), t)
  {
    assert n == 0 ==> derived + Repeat(id, n) == derived;
  }

  /**
   * A list that only grew: it still starts with what it held, and every
   * entry added since is an id above counter, one handed out later.
   */
  predicate GrownBy(before: seq<TypeId>, after: seq<TypeId>, counter: nat) {
    before <= after && forall k :: |before| <= k < |after| ==> after[k] > counter
  }

  /**
   * The counter, name_to_id and the window lists register_type writes, read
   * at one moment (the per-id type info is framed by Database.InfosKept).
   */
  datatype TypeTables = TypeTables(
    counter: nat, names: map<seq<Char>, TypeId>,
    bases: seq<seq<TypeId>>, upcasts: seq<seq<Token>>, derived: seq<seq<TypeId>>)

  /** Both snapshots list the same number of ids in every window table. */
  predicate SameShape(earlier: TypeTables, later: TypeTables) {
    && |earlier.bases| == |earlier.upcasts| == |earlier.derived|
    && |later.bases| == |later.upcasts| == |later.derived| == |earlier.derived|
  }

  /**
   * Id t keeps in later what it had in earlier: when it had been handed
   * out (or is 0) its base and upcast lists, and its derived list only
   * grew, by ids handed out since.
   */
  predicate IdKept(earlier: TypeTables, later: TypeTables, t: nat)
    requires SameShape(earlier, later) && t < |later.derived|
  {
    && (t <= earlier.counter ==> later.bases[t] == earlier.bases[t] && later.upcasts[t] == earlier.upcasts[t])
    && GrownBy(earlier.derived[t], later.derived[t], earlier.counter)
  }

  /**
   * later keeps what earlier had registered: the counter never goes back,
   * every name keeps its id, and every id keeps what it had (IdKept).
   */
  predicate TypesKept(earlier: TypeTables, later: TypeTables) {
    && earlier.counter <= later.counter
    && (forall n :: n in earlier.names ==> n in later.names && later.names[n] == earlier.names[n])
    && SameShape(earlier, later)
    && forall t :: 0 <= t < |later.derived| ==> IdKept(earlier, later, t)
  }

  /**
   * From lists b0, u0, d0 to b1, u1, d1 only the base and upcast lists of
   * id have changed, and the derived lists have only gained id.
   */
  predicate OnlyLinked(b0: seq<seq<TypeId>>, u0: seq<seq<Token>>, d0: seq<seq<TypeId>>,
                       b1: seq<seq<TypeId>>, u1: seq<seq<Token>>, d1: seq<seq<TypeId>>, id: TypeId)
    requires |b0| == |u0| == |d0| == MAX_TYPE_COUNT && 0 < id
  {
    && |b1| == |u1| == |d1| == MAX_TYPE_COUNT
    && (forall t :: 0 <= t < MAX_TYPE_COUNT && t != id ==> b1[t] == b0[t] && u1[t] == u0[t])
    && (forall t :: 0 <= t < MAX_TYPE_COUNT ==> GrownBy(d0[t], d1[t], id - 1))
  }

  /** Linking the next id to its bases keeps what was registered before. */
  lemma LinkingKeepsTypes(earlier: TypeTables, later: TypeTables, id: TypeId)
    requires |earlier.bases| == |earlier.upcasts| == |earlier.derived| == MAX_TYPE_COUNT
    requires 0 < id == earlier.counter + 1 <= later.counter
    requires forall n :: n in earlier.names ==> n in later.names && later.names[n] == earlier.names[n]
    requires OnlyLinked(earlier.bases, earlier.upcasts, earlier.derived, later.bases, later.upcasts, later.derived, id)
    ensures TypesKept(earlier, later)
  {
    forall t | 0 <= t < |later.derived|
      ensures IdKept(earlier, later, t)
    {
    }
  }

  /** A state keeps what it has. */
  lemma TypesKeptReflexive(a: TypeTables)
    requires |a.bases| == |a.upcasts| == |a.derived|
    ensures TypesKept(a, a)
  {
    forall t | 0 <= t < |a.derived|
      ensures IdKept(a, a, t)
    {
      assert a.derived[t][..|a.derived[t]|] == a.derived[t];
    }
  }

  /** Registrations one after the other keep what the first state had. */
  lemma TypesKeptTransitive(a: TypeTables, b: TypeTables, c: TypeTables)
    requires TypesKept(a, b) && TypesKept(b, c)
    ensures TypesKept(a, c)
  {
    forall t | 0 <= t < |c.derived|
      ensures IdKept(a, c, t)
    {
      assert IdKept(a, b, t) && IdKept(b, c, t);
      var x, y, z := a.derived[t], b.derived[t], c.derived[t];
      assert z[..|x|] == y[..|x|] == x;
      forall k | |x| <= k < |z|
        ensures z[k] > a.counter
      {
        if k < |y| {
          assert z[k] == y[k];
        }
      }
    }
  }

  class Database {
    /** type_id_counter: the last id handed out. */
    var typeIdCounter: nat
    /** name_to_id, keyed by the text of the name: two buffers with the same text hash alike and compare equal (see CStrings.HashChar and CStrings.ComparisonChar). */
    var nameToId: map<seq<Char>, TypeId>

    const typeInfoList: array<TypeInfo>
    const memberList: array<TypeMembers>
    const baseClassList: array<TypeId>
    const derivedClassList: array<TypeId>
    const conversionList: array<Token>

    var globalProperties: PropertyMap
    var globalMethods: MethodMap
    /** m_property_list and m_method_list: the containers the maps index into. */
    var propertyList: seq<PropertyDesc>
    var methodList: seq<MethodDesc>
    var customNameMap: seq<(Type, string)>

    /** The list each zero-terminated base window holds, per id. */
    ghost var baseOf: seq<seq<TypeId>>
    /** The upcast function to each base, per id, parallel to baseOf. */
    ghost var upcastOf: seq<seq<Token>>
    /** The list each zero-terminated derived window holds, per id. */
    ghost var derivedOf: seq<seq<TypeId>>
    /** Every call made into the database so far, in order. */
    ghost var log: seq<Call>

    /** The tables, all allocated once by the constructor. */
    ghost function Tables(): set<object> {
      {typeInfoList as object, memberList, baseClassList, derivedClassList, conversionList}
    }

    /** The tables have their fixed capacities. */
    predicate ArraysShaped() {
      && typeInfoList.Length == MAX_TYPE_COUNT
      && memberList.Length == MAX_TYPE_COUNT
      && baseClassList.Length == MAX_TYPE_COUNT * MAX_INHERIT_TYPES_COUNT
      && derivedClassList.Length == MAX_TYPE_COUNT * MAX_INHERIT_TYPES_COUNT
      && conversionList.Length == MAX_TYPE_COUNT * MAX_INHERIT_TYPES_COUNT
      && baseClassList != derivedClassList
    }

    /** The tables and the ghost window lists have one entry per id. */
    ghost predicate Shaped()
      reads this`baseOf, this`upcastOf, this`derivedOf
    {
      ArraysShaped() && |baseOf| == MAX_TYPE_COUNT && |upcastOf| == MAX_TYPE_COUNT && |derivedOf| == MAX_TYPE_COUNT
    }

    /** Ids are dense: name_to_id is a bijection between the names and 1..type_id_counter. */
    ghost predicate NamesDense()
      reads this`typeIdCounter, this`nameToId, typeInfoList
    {
      && typeInfoList.Length == MAX_TYPE_COUNT
      && typeIdCounter < MAX_TYPE_COUNT
      && (forall n :: n in nameToId ==> 1 <= nameToId[n] <= typeIdCounter && typeInfoList[nameToId[n]].name == n)
      && (forall id :: 1 <= id <= typeIdCounter ==>
            typeInfoList[id].name in nameToId && nameToId[typeInfoList[id].name] == id)
    }

    /** The base and upcast arrays hold the ghost base lists. */
    ghost predicate BaseWindows()
      reads this`baseOf, this`upcastOf, baseClassList, conversionList
    {
      ArraysShaped() && |baseOf| == MAX_TYPE_COUNT && |upcastOf| == MAX_TYPE_COUNT &&
      forall t :: 0 <= t < MAX_TYPE_COUNT ==>
        WindowHolds(baseClassList, t, baseOf[t], 0) && WindowHolds(conversionList, t, upcastOf[t], Null)
    }

    /** The derived array holds the ghost derived lists. */
    ghost predicate DerivedWindows()
      reads this`derivedOf, derivedClassList
    {
      ArraysShaped() && |derivedOf| == MAX_TYPE_COUNT &&
      forall t :: 0 <= t < MAX_TYPE_COUNT ==> WindowHolds(derivedClassList, t, derivedOf[t], 0)
    }

    /** Every window fits its 50 slots and lists registered ids only. */
    ghost predicate WindowEntries()
      reads this`typeIdCounter, this`baseOf, this`upcastOf, this`derivedOf
    {
      WindowListsFit(typeIdCounter, baseOf, upcastOf, derivedOf)
    }

    /** Every map index points into its container; no method map holds a duplicate overload. */
    ghost predicate ClassTablesValid()
      reads this`globalProperties, this`globalMethods, this`propertyList, this`methodList, memberList
    {
      && memberList.Length == MAX_TYPE_COUNT
      && PropertyIndicesBelow(globalProperties, |propertyList|)
      && MethodMapValid(globalMethods, methodList)
      && (forall t :: 0 <= t < MAX_TYPE_COUNT && memberList[t].classData.Some? ==>
            ClassDataValid(memberList[t].classData.value, |propertyList|, methodList))
    }

    /** The record of an id, read across every table. */
    ghost function Record(t: TypeId): TypeRecord
      reads this`baseOf, this`upcastOf, this`derivedOf, typeInfoList, memberList
      requires Shaped() && t < MAX_TYPE_COUNT
    {
      TypeRecord(typeInfoList[t], memberList[t], baseOf[t], upcastOf[t], derivedOf[t])
    }

    /** Id 0 and the ids not yet handed out have blank per-id entries. */
    ghost predicate TablesBlankBeyond()
      reads this`typeIdCounter, typeInfoList, memberList
    {
      && ArraysShaped()
      && forall t :: 0 <= t < MAX_TYPE_COUNT && (t == 0 || typeIdCounter < t) ==>
           typeInfoList[t] == BLANK_INFO && memberList[t] == NO_MEMBERS
    }

    /** Every known name was registered by a call in the log. */
    ghost predicate LogCoversNames()
      reads this`nameToId, this`log
    {
      forall n :: n in nameToId ==> RegisterTypeCall(n) in log
    }

    /** The invariant of the tables and maps. */
    ghost predicate Inv()
      reads this`typeIdCounter, this`nameToId, this`globalProperties, this`globalMethods
      reads this`propertyList, this`methodList, this`baseOf, this`upcastOf, this`derivedOf, Tables()
    {
      && Shaped()
      && NamesDense()
      && BaseWindows()
      && DerivedWindows()
      && WindowEntries()
      && ClassTablesValid()
      && TablesBlankBeyond()
    }

    /** The invariant, and every known name comes from a logged registration. */
    ghost predicate Valid()
      reads this, Tables()
    {
      Inv() && LogCoversNames()
    }

    /** A type the database has handed out. */
    predicate IsRegistered(t: Type)
      reads this`typeIdCounter
    {
      1 <= t.id <= typeIdCounter
    }

    constructor ()
      ensures Valid()
      ensures fresh(typeInfoList) && fresh(memberList) && fresh(baseClassList)
      ensures fresh(derivedClassList) && fresh(conversionList)
      ensures typeIdCounter == 0 && nameToId == map[] && log == [] && customNameMap == []
      ensures globalProperties == map[] && globalMethods == [] && propertyList == [] && methodList == []
      ensures forall t :: 0 <= t < MAX_TYPE_COUNT ==> Record(t) == BLANK_RECORD
    {
      typeIdCounter := 0;
      nameToId := map[];
      typeInfoList := new TypeInfo[MAX_TYPE_COUNT](_ => BLANK_INFO);
      memberList := new TypeMembers[MAX_TYPE_COUNT](_ => NO_MEMBERS);
      baseClassList := new TypeId[MAX_TYPE_COUNT * MAX_INHERIT_TYPES_COUNT](_ => 0);
      derivedClassList := new TypeId[MAX_TYPE_COUNT * MAX_INHERIT_TYPES_COUNT](_ => 0);
      conversionList := new Token[MAX_TYPE_COUNT * MAX_INHERIT_TYPES_COUNT](_ => Null);
      globalProperties := map[];
      globalMethods := [];
      propertyList := [];
      methodList := [];
      customNameMap := [];
      baseOf := seq(MAX_TYPE_COUNT, _ => []);
      upcastOf := seq(MAX_TYPE_COUNT, _ => []);
      derivedOf := seq(MAX_TYPE_COUNT, _ => []);
      log := [];
      new;
      EmptyIsValid();
    }

    /** Records a call in the log; the tables are untouched. */
    ghost method AppendToLog(c: Call)
      requires Valid()
      modifies this`log
      ensures Valid() && log == old(log) + [c]
    {
      log := log + [c];
    }

    /**
     * The counter never goes back and name_to_id, whose values are const,
     * only gains names: a name once mapped keeps its id.
     */
    twostate predicate NamesKept()
      reads this`typeIdCounter, this`nameToId
    {
      && old(typeIdCounter) <= typeIdCounter
      && (forall n :: n in old(nameToId) ==> n in nameToId && nameToId[n] == old(nameToId)[n])
    }

    /** The counter, the names and the window lists, as they stand. */
    ghost function TypeTablesNow(): TypeTables
      reads this`typeIdCounter, this`nameToId, this`baseOf, this`upcastOf, this`derivedOf
    {
      TypeTables(typeIdCounter, nameToId, baseOf, upcastOf, derivedOf)
    }

    /** Every id handed out before (and id 0) keeps its type info. */
    twostate predicate InfosKept()
      reads this`typeIdCounter, typeInfoList
    {
      forall t :: 0 <= t <= old(typeIdCounter) && t < typeInfoList.Length ==> typeInfoList[t] == old(typeInfoList[t])
    }

    /** Nothing register_type writes has changed. */
    twostate predicate TypeTablesUnchanged()
      reads this, Tables()
    {
      && typeIdCounter == old(typeIdCounter) && nameToId == old(nameToId)
      && baseOf == old(baseOf) && upcastOf == old(upcastOf) && derivedOf == old(derivedOf)
      && unchanged(typeInfoList, baseClassList, derivedClassList, conversionList)
    }

    /**
     * Writes base k of type t and its upcast function into the next slots of
     * t's base and upcast windows.
     */
    method PushBase(t: TypeId, k: nat, base: BaseClassInfo)
      requires BaseWindows() && t < MAX_TYPE_COUNT
      requires k == |baseOf[t]| < MAX_INHERIT_TYPES_COUNT && |upcastOf[t]| == |baseOf[t]| && base.baseType.id != 0
      modifies this`baseOf, this`upcastOf, baseClassList, conversionList
      ensures BaseWindows()
      ensures baseOf == old(baseOf)[t := old(baseOf[t]) + [base.baseType.id]]
      ensures upcastOf == old(upcastOf)[t := old(upcastOf[t]) + [base.castFunc]]
    {
      baseClassList[Slot(t, k)] := base.baseType.id;
      conversionList[Slot(t, k)] := base.castFunc;
      baseOf := baseOf[t := baseOf[t] + [base.baseType.id]];
      upcastOf := upcastOf[t := upcastOf[t] + [base.castFunc]];
      forall u, j | 0 <= u < MAX_TYPE_COUNT && 0 <= j < MAX_INHERIT_TYPES_COUNT
        ensures baseClassList[Slot(u, j)] == SlotValue(baseOf[u], j, 0)
        ensures conversionList[Slot(u, j)] == SlotValue(upcastOf[u], j, Null)
      {
        SlotsDisjoint(u, j, t, k);
      }
    }

    /**
     * Back-fills id into the derived window of t after its last entry; false
     * when the window already holds 50 entries.
     */
    method PushDerived(t: TypeId, id: TypeId) returns (ok: bool)
      requires DerivedWindows() && t < MAX_TYPE_COUNT && id != 0
      requires |derivedOf[t]| <= MAX_INHERIT_TYPES_COUNT && forall k :: 0 <= k < |derivedOf[t]| ==> derivedOf[t][k] != 0
      modifies this`derivedOf, derivedClassList
      ensures ok <==> |old(derivedOf[t])| < MAX_INHERIT_TYPES_COUNT
      ensures DerivedWindows()
      ensures ok ==> derivedOf == old(derivedOf)[t := old(derivedOf[t]) + [id]]
      ensures !ok ==> derivedOf == old(derivedOf)
    {
      var derived := ReadWindow(derivedClassList, t, derivedOf[t], 0);
      if |derived| == MAX_INHERIT_TYPES_COUNT {
        return false;
      }
      var k := |derived|;
      derivedClassList[Slot(t, k)] := id;
      derivedOf := derivedOf[t := derivedOf[t] + [id]];
      forall u, j | 0 <= u < MAX_TYPE_COUNT && 0 <= j < MAX_INHERIT_TYPES_COUNT
        ensures derivedClassList[Slot(u, j)] == SlotValue(derivedOf[u], j, 0)
      {
        SlotsDisjoint(u, j, t, k);
      }
      ok := true;
    }

    /**
     * register_type: a known name gives back its id and changes nothing. A new
     * name takes the next id, which must stay below RTTR_MAX_TYPE_COUNT, and
     * records its name, raw type, flags, pointer count and functions; its
     * bases (at most 50) fill its base and upcast windows in order, and the
     * new id is back-filled once into the derived window of each base, which
     * must have room. Exceeding a capacity is fatal.
     */
    method RegisterType(name: seq<Char>, rawType: Type, bases: seq<BaseClassInfo>,
                        derivedInfoFunc: Token, variantCreateFunc: Token,
                        classification: Classification, pointerCount: nat) returns (r: Result<Type>)
      requires Valid() && IsCString(name) && rawType.id <= typeIdCounter
      requires forall k :: 0 <= k < |bases| ==> IsRegistered(bases[k].baseType)
      modifies this`typeIdCounter, this`nameToId, this`baseOf, this`upcastOf, this`derivedOf, this`log
      modifies typeInfoList, baseClassList, derivedClassList, conversionList
      ensures log == old(log) + [RegisterTypeCall(Content(name))]
      ensures NamesKept() && nameToId.Keys <= old(nameToId).Keys + {Content(name)}
      ensures r.Ok? || r.error != TooManyDerivedTypes ==> Valid()
      ensures Content(name) in old(nameToId) ==> r == Ok(Type(old(nameToId)[Content(name)]))
      ensures Content(name) !in old(nameToId) ==>
                r == if old(typeIdCounter) + 1 == MAX_TYPE_COUNT then Fail(TooManyTypes)
                     else if |bases| > MAX_INHERIT_TYPES_COUNT then Fail(TooManyBaseClasses)
                     else if !DerivedRoom(old(derivedOf), bases) then Fail(TooManyDerivedTypes)
                     else Ok(Type(old(typeIdCounter) + 1))
      ensures Content(name) in old(nameToId) || (r.Fail? && r.error != TooManyDerivedTypes) ==> TypeTablesUnchanged()
      ensures TypesKept(old(TypeTablesNow()), TypeTablesNow()) && InfosKept()
      ensures r.Ok? ==> r.value.IsValid() && Content(name) in nameToId && nameToId[Content(name)] == r.value.id
      ensures r.Ok? && Content(name) !in old(nameToId) ==>
                && r.value.id == typeIdCounter == old(typeIdCounter) + 1
                && nameToId == old(nameToId)[Content(name) := r.value.id]
                && Record(r.value.id) == TypeRecord(
                     TypeInfo(Content(name), rawType.id, classification, pointerCount, variantCreateFunc, derivedInfoFunc),
                     NO_MEMBERS, BaseIds(bases), Casts(bases), [])
                && (forall t :: 0 <= t < MAX_TYPE_COUNT && t != r.value.id ==>
                      typeInfoList[t] == old(typeInfoList[t]) && baseOf[t] == old(baseOf[t]) && upcastOf[t] == old(upcastOf[t]))
                && (forall t :: 0 <= t < MAX_TYPE_COUNT ==>
                      derivedOf[t] == old(derivedOf[t]) + Repeat(r.value.id, Occurrences(bases, t)))
    {
      var key := Content(name);
      AppendToLog(RegisterTypeCall(key));
      TypesKeptReflexive(TypeTablesNow());
      if key in nameToId {
        return Ok(Type(nameToId[key]));
      }
      if typeIdCounter + 1 == MAX_TYPE_COUNT {
        return Fail(TooManyTypes);
      }
      if |bases| > MAX_INHERIT_TYPES_COUNT {
        return Fail(TooManyBaseClasses);
      }
      r := AddType(key, TypeInfo(key, rawType.id, classification, pointerCount, variantCreateFunc, derivedInfoFunc), bases);
    }

    /** register_type for a new name that fits: the next id, linked to its bases. */
    method AddType(key: seq<Char>, info: TypeInfo, bases: seq<BaseClassInfo>) returns (r: Result<Type>)
      requires Valid() && key !in nameToId && typeIdCounter + 1 < MAX_TYPE_COUNT
      requires info.name == key && RegisterTypeCall(key) in log && |bases| <= MAX_INHERIT_TYPES_COUNT
      requires forall k :: 0 <= k < |bases| ==> IsRegistered(bases[k].baseType)
      modifies this`typeIdCounter, this`nameToId, this`baseOf, this`upcastOf, this`derivedOf
      modifies typeInfoList, baseClassList, derivedClassList, conversionList
      ensures r == if DerivedRoom(old(derivedOf), bases) then Ok(Type(old(typeIdCounter) + 1)) else Fail(TooManyDerivedTypes)
      ensures typeIdCounter == old(typeIdCounter) + 1 && nameToId == old(nameToId)[key := typeIdCounter]
      ensures TypesKept(old(TypeTablesNow()), TypeTablesNow()) && InfosKept()
      ensures r.Ok? ==>
                && Valid() && typeIdCounter == r.value.id && nameToId == old(nameToId)[key := r.value.id]
                && Record(r.value.id) == TypeRecord(info, NO_MEMBERS, BaseIds(bases), Casts(bases), [])
                && (forall t :: 0 <= t < MAX_TYPE_COUNT && t != r.value.id ==>
                      typeInfoList[t] == old(typeInfoList[t]) && baseOf[t] == old(baseOf[t]) && upcastOf[t] == old(upcastOf[t]))
                && (forall t :: 0 <= t < MAX_TYPE_COUNT ==>
                      derivedOf[t] == old(derivedOf[t]) + Repeat(r.value.id, Occurrences(bases, t)))
    {
      var id := ReserveId(key, info);
      var ok := LinkBases(id, bases);
      LinkingKeepsTypes(old(TypeTablesNow()), TypeTablesNow(), id);
      if !ok {
        return Fail(TooManyDerivedTypes);
      }
      OccurrencesOfNonBase(bases, id);
      assert derivedOf[id] == old(derivedOf[id]) + [];
      r := Ok(Type(id));
    }

    /** register_type for a new name: the next id, the name mapped to it and its per-id entry. */
    method ReserveId(key: seq<Char>, info: TypeInfo) returns (id: TypeId)
      requires Valid() && key !in nameToId && typeIdCounter + 1 < MAX_TYPE_COUNT
      requires info.name == key && RegisterTypeCall(key) in log
      modifies this`typeIdCounter, this`nameToId, typeInfoList
      ensures Valid()
      ensures id == typeIdCounter == old(typeIdCounter) + 1 && nameToId == old(nameToId)[key := id]
      ensures typeInfoList[id] == info && old(typeInfoList[id]) == BLANK_INFO
      ensures forall t :: 0 <= t < MAX_TYPE_COUNT && t != id ==> typeInfoList[t] == old(typeInfoList[t])
    {
      id := typeIdCounter + 1;
      typeIdCounter := id;
      nameToId := nameToId[key := id];
      typeInfoList[id] := info;
    }

    /**
     * The bases of the new type id, at most 50 registered ids below it, are
     * linked: its base and upcast windows list them in order and id is
     * back-filled into the derived window of each. False when a derived
     * window has no room.
     */
    method LinkBases(id: TypeId, bases: seq<BaseClassInfo>) returns (ok: bool)
      requires Valid() && 0 < id == typeIdCounter && |bases| <= MAX_INHERIT_TYPES_COUNT
      requires baseOf[id] == [] && upcastOf[id] == [] && derivedOf[id] == []
      requires forall k :: 0 <= k < |bases| ==> 0 < bases[k].baseType.id < id
      modifies this`baseOf, this`upcastOf, this`derivedOf, baseClassList, conversionList, derivedClassList
      ensures ok <==> DerivedRoom(old(derivedOf), bases)
      ensures LinkedOnly(old(baseOf), old(upcastOf), old(derivedOf), id)
      ensures ok ==> Valid()
      ensures ok ==> baseOf == old(baseOf)[id := BaseIds(bases)] && upcastOf == old(upcastOf)[id := Casts(bases)]
      ensures ok ==> forall t :: 0 <= t < MAX_TYPE_COUNT ==>
                       derivedOf[t] == old(derivedOf[t]) + Repeat(id, Occurrences(bases, t))
    {
      ok := FillWindows(id, bases);
      if ok {
        assert bases[..|bases|] == bases;
        LinkKeepsListsFit(id, old(baseOf), old(upcastOf), old(derivedOf), bases, derivedOf);
      }
    }

    /**
     * After the first i bases of the new type id: its base and upcast windows
     * list them, and id sits in each derived window once per occurrence.
     */
    ghost predicate Filled(b0: seq<seq<TypeId>>, u0: seq<seq<Token>>, d0: seq<seq<TypeId>>,
                           id: TypeId, bases: seq<BaseClassInfo>, i: nat)
      reads this`baseOf, this`upcastOf, this`derivedOf
      requires |b0| == |u0| == |d0| == MAX_TYPE_COUNT && id < MAX_TYPE_COUNT && i <= |bases|
    {
      && baseOf == b0[id := BaseIds(bases[..i])]
      && upcastOf == u0[id := Casts(bases[..i])]
      && |derivedOf| == MAX_TYPE_COUNT
      && (forall t :: 0 <= t < MAX_TYPE_COUNT ==> derivedOf[t] == d0[t] + Repeat(id, Occurrences(bases[..i], t)))
      && (forall t :: 0 <= t < MAX_TYPE_COUNT ==> |derivedOf[t]| <= MAX_INHERIT_TYPES_COUNT)
    }

    /**
     * Since b0, u0, d0 only the base and upcast lists of id have changed,
     * and the derived lists have only gained id.
     */
    ghost predicate LinkedOnly(b0: seq<seq<TypeId>>, u0: seq<seq<Token>>, d0: seq<seq<TypeId>>, id: TypeId)
      reads this`baseOf, this`upcastOf, this`derivedOf
      requires |b0| == |u0| == |d0| == MAX_TYPE_COUNT && 0 < id
    {
      OnlyLinked(b0, u0, d0, baseOf, upcastOf, derivedOf, id)
    }

    /** The loop of LinkBases over the bases, in order. */
    method FillWindows(id: TypeId, bases: seq<BaseClassInfo>) returns (ok: bool)
      requires BaseWindows() && DerivedWindows() && 0 < id < MAX_TYPE_COUNT && |bases| <= MAX_INHERIT_TYPES_COUNT
      requires baseOf[id] == [] && upcastOf[id] == []
      requires forall k :: 0 <= k < |bases| ==> 0 < bases[k].baseType.id < id
      requires forall t :: 0 <= t < MAX_TYPE_COUNT ==> |derivedOf[t]| <= MAX_INHERIT_TYPES_COUNT
      requires forall t, k :: 0 <= t < MAX_TYPE_COUNT && 0 <= k < |derivedOf[t]| ==> derivedOf[t][k] != 0
      modifies this`baseOf, this`upcastOf, this`derivedOf, baseClassList, conversionList, derivedClassList
      ensures BaseWindows() && DerivedWindows()
      ensures ok <==> DerivedRoom(old(derivedOf), bases)
      ensures LinkedOnly(old(baseOf), old(upcastOf), old(derivedOf), id)
      ensures ok ==> Filled(old(baseOf), old(upcastOf), old(derivedOf), id, bases, |bases|)
    {
      var i := 0;
      assert bases[..0] == [];
      while i < |bases|
        invariant i <= |bases|
        invariant BaseWindows() && DerivedWindows()
        invariant Filled(old(baseOf), old(upcastOf), old(derivedOf), id, bases, i)
        invariant LinkedOnly(old(baseOf), old(upcastOf), old(derivedOf), id)
      {
        var pushed := LinkOne(id, bases, i, old(baseOf), old(upcastOf), old(derivedOf));
        if !pushed {
          DerivedRoomOfPrefix(old(derivedOf), bases, i + 1);
          return false;
        }
        i := i + 1;
      }
      assert bases[..i] == bases;
      ok := true;
    }

    /** One step of FillWindows: base i of the new type id. */
    method LinkOne(id: TypeId, bases: seq<BaseClassInfo>, i: nat,
                   ghost b0: seq<seq<TypeId>>, ghost u0: seq<seq<Token>>, ghost d0: seq<seq<TypeId>>)
      returns (pushed: bool)
      requires BaseWindows() && DerivedWindows() && 0 < id < MAX_TYPE_COUNT && i < |bases| <= MAX_INHERIT_TYPES_COUNT
      requires |b0| == |u0| == |d0| == MAX_TYPE_COUNT && b0[id] == [] && u0[id] == []
      requires forall k :: 0 <= k < |bases| ==> 0 < bases[k].baseType.id < id
      requires forall t, k :: 0 <= t < MAX_TYPE_COUNT && 0 <= k < |d0[t]| ==> d0[t][k] != 0
      requires Filled(b0, u0, d0, id, bases, i)
      modifies this`baseOf, this`upcastOf, this`derivedOf, baseClassList, conversionList, derivedClassList
      ensures BaseWindows() && DerivedWindows()
      ensures pushed <==> DerivedRoom(d0, bases[..i + 1])
      ensures LinkedOnly(b0, u0, d0, id)
      ensures pushed ==> Filled(b0, u0, d0, id, bases, i + 1)
    {
      var base := bases[i];
      var b := base.baseType.id;
      assert bases[..i + 1][..i] == bases[..i];
      assert |BaseIds(bases[..i])| == i;
      PushBase(id, i, base);
      NoZeroEntries(d0[b], id, Occurrences(bases[..i], b));
      pushed := PushDerived(b, id);
      assert Repeat(id, Occurrences(bases[..i], b)) + [id] == Repeat(id, Occurrences(bases[..i + 1], b));
    }

    // -------------------------------------------------------------------
    // member registration

    /**
     * The scope a declaration owned by owner lands in: declarations owned by
     * `void` (the free property_/method_ forms) go to the global maps.
     */
    function ScopeOf(owner: Type): (s: Scope)
      reads typeInfoList
      requires ArraysShaped() && owner.id < MAX_TYPE_COUNT
      ensures s == Global <==> typeInfoList[owner.id].name == VOID_NAME
      ensures s.InClass? ==> s.owner == owner.id
    {
      if typeInfoList[owner.id].name == VOID_NAME then Global else InClass(owner.id)
    }

    /** class_data_list[t], created empty on first use. */
    function ClassDataOf(t: TypeId): ClassData
      reads memberList
      requires ArraysShaped() && t < MAX_TYPE_COUNT
    {
      if memberList[t].classData.Some? then memberList[t].classData.value else EMPTY_CLASS_DATA
    }

    /** The property map of a scope. */
    function PropertiesIn(s: Scope): PropertyMap
      reads this`globalProperties, memberList
      requires ArraysShaped() && (s.InClass? ==> s.owner < MAX_TYPE_COUNT)
    {
      if s.Global? then globalProperties else ClassDataOf(s.owner).propertyMap
    }

    /** The method map of a scope. */
    function MethodsIn(s: Scope): MethodMap
      reads this`globalMethods, memberList
      requires ArraysShaped() && (s.InClass? ==> s.owner < MAX_TYPE_COUNT)
    {
      if s.Global? then globalMethods else ClassDataOf(s.owner).methodMap
    }

    /** Every scope's maps index into the containers. */
    lemma ScopesValid(s: Scope)
      requires ClassTablesValid() && ArraysShaped() && (s.InClass? ==> s.owner < MAX_TYPE_COUNT)
      ensures PropertyIndicesBelow(PropertiesIn(s), |propertyList|)
      ensures MethodMapValid(MethodsIn(s), methodList)
    {
    }

    /** Writes the member entry of the registered id t; everything else is kept. */
    method WriteMembers(t: TypeId, m: TypeMembers)
      requires Valid() && 1 <= t <= typeIdCounter
      requires m.classData.Some? ==> ClassDataValid(m.classData.value, |propertyList|, methodList)
      modifies memberList
      ensures Valid()
      ensures memberList[t] == m
      ensures forall u :: 0 <= u < MAX_TYPE_COUNT && u != t ==> memberList[u] == old(memberList[u])
    {
      memberList[t] := m;
    }

    /** Replaces global_properties by a map indexing into the container. */
    method WriteGlobalProperties(pm: PropertyMap)
      requires Valid() && PropertyIndicesBelow(pm, |propertyList|)
      modifies this`globalProperties
      ensures Valid() && globalProperties == pm
    {
      globalProperties := pm;
    }

    /** Replaces global_methods by a valid map over the container. */
    method WriteGlobalMethods(mm: MethodMap)
      requires Valid() && MethodMapValid(mm, methodList)
      modifies this`globalMethods
      ensures Valid() && globalMethods == mm
    {
      globalMethods := mm;
    }

    /** Appends a property to m_property_list, keeping every map valid. */
    method PushProperty(prop: PropertyDesc)
      requires Valid()
      modifies this`propertyList
      ensures Valid() && propertyList == old(propertyList) + [prop]
    {
      propertyList := propertyList + [prop];
      assert ClassTablesValid();
    }

    /** Appends a method to m_method_list, keeping every map valid. */
    method PushMethod(m: MethodDesc)
      requires Valid()
      modifies this`methodList
      ensures Valid() && methodList == old(methodList) + [m]
    {
      MethodMapValidGrows(globalMethods, methodList, [m]);
      forall t | 0 <= t < MAX_TYPE_COUNT && memberList[t].classData.Some?
        ensures MethodMapValid(memberList[t].classData.value.methodMap, methodList + [m])
      {
        MethodMapValidGrows(memberList[t].classData.value.methodMap, methodList, [m]);
      }
      methodList := methodList + [m];
    }

    /**
     * register_property: the property joins m_property_list and its name is
     * bound to it in the property map of the owner's scope (last
     * registration wins). find_property in that scope then returns it, and
     * every other lookup is unchanged.
     */
    method RegisterProperty(owner: Type, prop: PropertyDesc)
      requires Valid() && IsRegistered(owner)
      modifies this`globalProperties, this`propertyList, this`log, memberList
      ensures Valid()
      ensures log == old(log) + [PropertyCall(owner, prop.name)]
      ensures propertyList == old(propertyList) + [prop]
      ensures PropertiesIn(ScopeOf(owner)) == InsertProperty(old(PropertiesIn(ScopeOf(owner))), prop.name, |old(propertyList)|)
      ensures ScopeOf(owner).InClass? ==>
                globalProperties == old(globalProperties) &&
                memberList[owner.id] == old(memberList[owner.id]).(classData := Some(ClassDataOf(owner.id))) &&
                ClassDataOf(owner.id).ctorList == old(ClassDataOf(owner.id)).ctorList &&
                ClassDataOf(owner.id).methodMap == old(ClassDataOf(owner.id)).methodMap
      ensures forall t :: 0 <= t < MAX_TYPE_COUNT && ScopeOf(owner) != InClass(t) ==> memberList[t] == old(memberList[t])
    {
      AppendToLog(PropertyCall(owner, prop.name));
      if ScopeOf(owner).Global? {
        AddGlobalProperty(prop);
      } else {
        AddClassProperty(owner.id, prop);
      }
    }

    /** register_property on global_properties. */
    method AddGlobalProperty(prop: PropertyDesc)
      requires Valid()
      modifies this`globalProperties, this`propertyList
      ensures Valid() && propertyList == old(propertyList) + [prop]
      ensures globalProperties == InsertProperty(old(globalProperties), prop.name, |old(propertyList)|)
    {
      var index := |propertyList|;
      InsertPropertyLookup(globalProperties, propertyList, prop, prop.name);
      PushProperty(prop);
      WriteGlobalProperties(InsertProperty(globalProperties, prop.name, index));
    }

    /** register_property on the property map of the registered class t. */
    method AddClassProperty(t: TypeId, prop: PropertyDesc)
      requires Valid() && 1 <= t <= typeIdCounter
      modifies this`propertyList, memberList
      ensures Valid() && propertyList == old(propertyList) + [prop]
      ensures memberList[t] == old(memberList[t]).(classData := Some(old(ClassDataOf(t)).(
                propertyMap := InsertProperty(old(ClassDataOf(t)).propertyMap, prop.name, |old(propertyList)|))))
      ensures forall u :: 0 <= u < MAX_TYPE_COUNT && u != t ==> memberList[u] == old(memberList[u])
    {
      var cd := ClassDataOf(t);
      var index := |propertyList|;
      ScopesValid(InClass(t));
      InsertPropertyLookup(cd.propertyMap, propertyList, prop, prop.name);
      PushProperty(prop);
      WriteMembers(t, memberList[t].(classData := Some(cd.(propertyMap := InsertProperty(cd.propertyMap, prop.name, index)))));
    }

    /**
     * register_method: the method is dropped when its scope's method map
     * already holds its name and signature (the first registration stays);
     * otherwise it joins m_method_list and an entry for it is added to the
     * multimap of its scope, next to any overloads.
     */
    method RegisterMethod(owner: Type, m: MethodDesc)
      requires Valid() && IsRegistered(owner)
      modifies this`globalMethods, this`methodList, this`log, memberList
      ensures Valid()
      ensures log == old(log) + [MethodCall(owner, m.name)]
      ensures MethodsIn(ScopeOf(owner)) == InsertMethod(old(MethodsIn(ScopeOf(owner))), old(methodList), m)
      ensures methodList == if old(IsMethodAlreadyRegistered(m, MethodsIn(ScopeOf(owner)), methodList))
                            then old(methodList) else old(methodList) + [m]
      ensures ScopeOf(owner).InClass? ==>
                globalMethods == old(globalMethods) &&
                (old(IsMethodAlreadyRegistered(m, MethodsIn(ScopeOf(owner)), methodList)) ==>
                   memberList[owner.id] == old(memberList[owner.id])) &&
                memberList[owner.id].(classData := None) == old(memberList[owner.id]).(classData := None) &&
                ClassDataOf(owner.id).ctorList == old(ClassDataOf(owner.id)).ctorList &&
                ClassDataOf(owner.id).propertyMap == old(ClassDataOf(owner.id)).propertyMap
      ensures forall t :: 0 <= t < MAX_TYPE_COUNT && ScopeOf(owner) != InClass(t) ==> memberList[t] == old(memberList[t])
    {
      AppendToLog(MethodCall(owner, m.name));
      ScopesValid(ScopeOf(owner));
      if ScopeOf(owner).Global? {
        AddGlobalMethod(m);
      } else {
        AddClassMethod(owner.id, m);
      }
    }

    /** register_method on global_methods. */
    method AddGlobalMethod(m: MethodDesc)
      requires Valid()
      modifies this`globalMethods, this`methodList
      ensures Valid()
      ensures globalMethods == InsertMethod(old(globalMethods), old(methodList), m)
      ensures methodList == if IsMethodAlreadyRegistered(m, old(globalMethods), old(methodList))
                            then old(methodList) else old(methodList) + [m]
    {
      if IsMethodAlreadyRegistered(m, globalMethods, methodList) {
        return;
      }
      var mm := InsertMethod(globalMethods, methodList, m);
      InsertMethodLookup(globalMethods, methodList, m, m.name, m.parameterTypes);
      PushMethod(m);
      WriteGlobalMethods(mm);
    }

    /** register_method on the method map of the registered class t. */
    method AddClassMethod(t: TypeId, m: MethodDesc)
      requires Valid() && 1 <= t <= typeIdCounter
      modifies this`methodList, memberList
      ensures Valid()
      ensures IsMethodAlreadyRegistered(m, old(ClassDataOf(t)).methodMap, old(methodList)) ==>
                methodList == old(methodList) && memberList[t] == old(memberList[t])
      ensures !IsMethodAlreadyRegistered(m, old(ClassDataOf(t)).methodMap, old(methodList)) ==>
                && methodList == old(methodList) + [m]
                && memberList[t] == old(memberList[t]).(classData := Some(old(ClassDataOf(t)).(
                     methodMap := InsertMethod(old(ClassDataOf(t)).methodMap, old(methodList), m))))
      ensures forall u :: 0 <= u < MAX_TYPE_COUNT && u != t ==> memberList[u] == old(memberList[u])
    {
      var cd := ClassDataOf(t);
      ScopesValid(InClass(t));
      if IsMethodAlreadyRegistered(m, cd.methodMap, methodList) {
        return;
      }
      var mm := InsertMethod(cd.methodMap, methodList, m);
      InsertMethodLookup(cd.methodMap, methodList, m, m.name, m.parameterTypes);
      PushMethod(m);
      WriteMembers(t, memberList[t].(classData := Some(cd.(methodMap := mm))));
    }

    /**
     * register_constructor: the constructor is appended to the constructor
     * list of the class data of its type, created on first use.
     */
    method RegisterConstructor(owner: Type, ctor: ConstructorDesc)
      requires Valid() && IsRegistered(owner)
      modifies this`log, memberList
      ensures Valid() && log == old(log) + [ConstructorCall(owner)]
      ensures memberList[owner.id] == old(memberList[owner.id]).(classData := Some(AddConstructor(old(ClassDataOf(owner.id)), ctor)))
      ensures forall u :: 0 <= u < MAX_TYPE_COUNT && u != owner.id ==> memberList[u] == old(memberList[u])
    {
      AppendToLog(ConstructorCall(owner));
      ScopesValid(InClass(owner.id));
      WriteMembers(owner.id, memberList[owner.id].(classData := Some(AddConstructor(ClassDataOf(owner.id), ctor))));
    }

    /** register_destructor: the destructor slot of the type holds the destructor. */
    method RegisterDestructor(owner: Type, dtor: DestructorDesc)
      requires Valid() && IsRegistered(owner)
      modifies this`log, memberList
      ensures Valid() && log == old(log) + [DestructorCall(owner)]
      ensures memberList[owner.id] == old(memberList[owner.id]).(destructor := Some(dtor))
      ensures forall u :: 0 <= u < MAX_TYPE_COUNT && u != owner.id ==> memberList[u] == old(memberList[u])
    {
      AppendToLog(DestructorCall(owner));
      WriteMembers(owner.id, memberList[owner.id].(destructor := Some(dtor)));
    }

    /** register_enumeration: the enumeration slot of the enum type holds the enumeration. */
    method RegisterEnumeration(owner: Type, e: EnumerationDesc)
      requires Valid() && IsRegistered(owner)
      modifies this`log, memberList
      ensures Valid() && log == old(log) + [EnumerationCall(owner)]
      ensures memberList[owner.id] == old(memberList[owner.id]).(enumeration := Some(e))
      ensures forall u :: 0 <= u < MAX_TYPE_COUNT && u != owner.id ==> memberList[u] == old(memberList[u])
    {
      AppendToLog(EnumerationCall(owner));
      WriteMembers(owner.id, memberList[owner.id].(enumeration := Some(e)));
    }

    /**
     * register_metadata: the items are merged into the metadata of the type
     * key by key, the last value for a key winning.
     */
    method RegisterMetadata(owner: Type, items: seq<MetaItem>)
      requires Valid() && IsRegistered(owner)
      modifies this`log, memberList
      ensures Valid() && log == old(log) + [MetadataCall(owner)]
      ensures memberList[owner.id] == old(memberList[owner.id]).(metadata := Merge(old(memberList[owner.id].metadata), items))
      ensures forall u :: 0 <= u < MAX_TYPE_COUNT && u != owner.id ==> memberList[u] == old(memberList[u])
    {
      AppendToLog(MetadataCall(owner));
      WriteMembers(owner.id, memberList[owner.id].(metadata := Merge(memberList[owner.id].metadata, items)));
    }

    /**
     * register_type_converter: the converter is appended to the converter
     * list of its source type; earlier converters are kept, even to the same
     * target.
     */
    method RegisterTypeConverter(source: Type, c: Converter)
      requires Valid() && IsRegistered(source)
      modifies this`log, memberList
      ensures Valid() && log == old(log) + [ConverterCall(source)]
      ensures memberList[source.id] == old(memberList[source.id]).(converters := old(memberList[source.id].converters) + [c])
      ensures forall u :: 0 <= u < MAX_TYPE_COUNT && u != source.id ==> memberList[u] == old(memberList[u])
    {
      AppendToLog(ConverterCall(source));
      WriteMembers(source.id, memberList[source.id].(converters := memberList[source.id].converters + [c]));
    }

    /** register_custom_name: the pair joins the custom-name multimap. */
    method RegisterCustomName(owner: Type, name: string)
      requires Valid() && IsRegistered(owner)
      modifies this`log, this`customNameMap
      ensures Valid() && log == old(log) + [CustomNameCall(owner, name)]
      ensures customNameMap == old(customNameMap) + [(owner, name)]
    {
      AppendToLog(CustomNameCall(owner, name));
      customNameMap := customNameMap + [(owner, name)];
    }

    // -------------------------------------------------------------------
    // reading the inheritance tables

    /** The base types of t, read from its zero-terminated base window. */
    method GetBaseTypes(t: Type) returns (r: seq<TypeId>)
      requires Valid() && t.id < MAX_TYPE_COUNT
      ensures r == baseOf[t.id]
    {
      assert ListsFitAt(typeIdCounter, baseOf[t.id], upcastOf[t.id], derivedOf[t.id], t.id);
      r := ReadWindow(baseClassList, t.id, baseOf[t.id], 0);
    }

    /** The derived types of t, read from its zero-terminated derived window. */
    method GetDerivedTypes(t: Type) returns (r: seq<TypeId>)
      requires Valid() && t.id < MAX_TYPE_COUNT
      ensures r == derivedOf[t.id]
    {
      assert ListsFitAt(typeIdCounter, baseOf[t.id], upcastOf[t.id], derivedOf[t.id], t.id);
      r := ReadWindow(derivedClassList, t.id, derivedOf[t.id], 0);
    }

    /** An id nobody has registered (0, or beyond the counter) has the blank record. */
    lemma UnregisteredIsBlank(t: TypeId)
      requires Valid() && t < MAX_TYPE_COUNT && (t == 0 || typeIdCounter < t)
      ensures Record(t) == BLANK_RECORD
    {
      assert ListsFitAt(typeIdCounter, baseOf[t], upcastOf[t], derivedOf[t], t);
    }

    /** The empty database, every slot blank, satisfies the invariant. */
    lemma EmptyIsValid()
      requires ArraysShaped() && typeIdCounter == 0 && nameToId == map[] && log == []
      requires globalProperties == map[] && globalMethods == [] && propertyList == [] && methodList == []
      requires forall i :: 0 <= i < MAX_TYPE_COUNT ==> typeInfoList[i] == BLANK_INFO && memberList[i] == NO_MEMBERS
      requires forall i :: 0 <= i < baseClassList.Length ==> baseClassList[i] == 0 && derivedClassList[i] == 0
      requires forall i :: 0 <= i < conversionList.Length ==> conversionList[i] == Null
      requires |baseOf| == |upcastOf| == |derivedOf| == MAX_TYPE_COUNT
      requires forall t :: 0 <= t < MAX_TYPE_COUNT ==> baseOf[t] == [] && upcastOf[t] == [] && derivedOf[t] == []
      ensures Valid()
    {
      BlankWindows(baseClassList, 0);
      BlankWindows(conversionList, Null);
      BlankWindows(derivedClassList, 0);
    }
  }
}
