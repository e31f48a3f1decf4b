# RTTR reflection registry, modelled in Dafny

This project models the core of RTTR's run-time reflection registry and proves properties of that model. It has three parts.

- **The `type` value** (`types.dfy`). A `type` is a thin wrapper over an integer id, and id 0 is the invalid type. Each comparison operator is the same operator on the ids.
- **The reflection database** (`cstrings.dfy`, `tables.dfy`, `database.dfy`). This is the single table-backed registry behind every `type`:
  - a global id counter;
  - the `name_to_id` hash map, with its `hash_char` and `comparison_char` functors over C strings;
  - per-id tables of `RTTR_MAX_TYPE_COUNT` (32767) slots;
  - flat base, derived and upcast arrays with 50 slots per type;
  - per-class `class_data`: a constructor list, a property map with one index per name, and a method multimap that allows overloads;
  - the global property and method maps;
  - the containers that own every registered property and method.

  The database is a `class` over `array`s and `map`/`seq` fields, and its registration methods keep one invariant, `Valid()`. A ghost log records every call into the database in order, and the protocol contracts are stated on that log.
- **Type registration and the registration protocol** (`metatype.dfy`, `registration.dfy`):
  - `MetaTypeInfo<T>::get_type` registers the raw type of `T` first, then `T`, and keeps the result in a function-local static. This is modelled by `TypeCache`, keyed by the canonical name.
  - `register_converter_func` attaches a converter to its source type.
  - The `*_impl` helpers, the `class_<T>` constructor and the free `property_`/`method_`/`enumeration_` forms fold the declared metadata into a descriptor and only then hand the descriptor to the database, in a fixed order of calls.

`char` buffers are byte sequences (`bv8`) that contain a NUL. `size_t` is 64 bits wide: `hash_char` runs on `bv64`, so it wraps around. Whether `char` is signed is a parameter, so sign extension of bytes of 0x80 and above is modelled explicitly. Function pointers are opaque `Token`s: invokers, accessors, variant factories, derived-info functions, upcast and converter functions. Canonical type names are inputs to the model. The compile-time classification flags and the chosen policies are plain parameters.

The bodies of `register_type`, of the `impl::register_*` entry points and of `find_*` are in `.cpp` files. Those files are not part of this model. The methods that stand for them follow the declarations, the container kinds and the capacities, and, where the header leaves a choice open, the library's documented behaviour:

- A name already known returns its id. A new name takes the next id and records its per-id entries. Its bases are written into its base and upcast windows. Its id is then back-filled into the derived window of each base.
- Going past a capacity is fatal. This appears as a `Fail` result, after which every protocol method stops at once.
- `register_property` rebinds a name that is already present, so the last registration wins. The header fixes only that a `property_map` (an `unordered_map`) holds one index per name; which registration stays is the library's documented behaviour, not something the header decides.
- `register_method` drops a method whose name and signature are already registered, so the first registration wins. This is what `is_method_already_registered` exists for.
- A declaration whose owner is `type::get<void>()` (the free forms) lands in the global maps; any other owner uses the owner's `class_data`.
- `name_to_id` is keyed by the text before the first NUL. The contracts of `ComparisonChar` and `HashChar` justify this: `comparison_char` is exactly equality of that text, and `hash_char` is a function of it.

## Model

| member | source | states |
|---|---|---|
| CStrings.HashChar | src/rttr/detail/reflection_database_p.h:62-74 | The loop from seed 0xcbf29ce4 computes `h := (h xor c) * 0x01000193` (mod 2^64) over every char before the first NUL. The result equals the fold `HashOf` of the string's text. |
| CStrings.Promote | src/rttr/detail/reflection_database_p.h:69-70 | `*ptr` widened to size_t keeps the byte in the low 8 bits. The upper bits are all ones exactly when char is signed and the byte is 0x80 or more, and zero otherwise. |
| CStrings.HashSamples | src/rttr/detail/reflection_database_p.h:64-72 | Worked values: "ab" gives 0x1ea4d2351a235f07 whether char is signed or not. The byte 0xE9 with signed char gives 0xff340c21fe12ed77. |
| CStrings.ComparisonChar | src/rttr/detail/reflection_database_p.h:76-83 | The loop returns true if and only if both strings hold the same chars up to their first NUL. |
| CStrings.ContentIgnoresTail | src/rttr/detail/reflection_database_p.h:78-82 | Bytes after the terminator never change what a C string denotes. |
| CStrings.ProperPrefixDiffers | src/rttr/detail/reflection_database_p.h:78-82 | Buffers `t+[NUL]+x` and `t+[c]+y` with `c` not NUL denote different texts, whatever `x` and `y` hold: the first denotes exactly `t`, and the walk stops at the first NUL. |
| Types.Type.GetId | src/rttr/impl/type_impl.h:120-123 | `get_id` returns the stored id: the type is rebuilt exactly from it. |
| Types.DefaultType | src/rttr/impl/type_impl.h:49-52 | A default-constructed type has id 0 and is neither valid nor true. |
| Types.FromId | src/rttr/impl/type_impl.h:56-59 | `type(id)` has that id, and it is valid exactly when the id is not 0. |
| Types.Copy | src/rttr/impl/type_impl.h:63-74 | Copy construction and assignment give a type with the same id, equal to the original. |
| Types.InvalidType | src/rttr/impl/type_impl.h:181 | `get_invalid_type` is the default-constructed type, which is not valid. |
| Types.ValidityIsNonZeroId | src/rttr/impl/type_impl.h:127-137 | `is_valid()` and `operator bool` agree. Both mean the id is not 0, and both fail exactly for the invalid type. |
| Types.EqualityIsIdIdentity | src/rttr/impl/type_impl.h:106-116 | `==` is equality of ids and of the values themselves, and `!=` is its negation. |
| Types.OrderOperatorsMirror | src/rttr/impl/type_impl.h:78-102 | `a<b` if and only if `b>a`. `a<=b` if and only if `!(a>b)`. `a>=b` if and only if `!(a<b)`. `<=` is `<` or `==`. |
| Types.LessIsStrictTotalOrder | src/rttr/impl/type_impl.h:78-81 | `<` is irreflexive, asymmetric, transitive and total. |
| Tables.Slot | src/rttr/detail/reflection_database_p.h:139-141 | Slot k of type t, at t*50+k, lies inside the 32767*50 flat arrays. |
| Tables.SlotDecodes | src/rttr/detail/reflection_database_p.h:139-141 | A flat slot gives back its type (by division by 50) and its position (by remainder). |
| Tables.SlotsDisjoint | src/rttr/detail/reflection_database_p.h:139-141 | Two slots coincide only for the same type and position, so the windows of distinct types never overlap. |
| Tables.AddConstructor | src/rttr/detail/reflection_database_p.h:122-129 | `add_constructor` appends the constructor to `m_ctor_list` and leaves the property and method maps alone. |
| Tables.SignatureMatches | src/rttr/detail/reflection_database_p.h:97-101 | `does_signature_match_arguments` is true exactly when the parameter and argument lists hold the same types in the same order. |
| Tables.IsMethodAlreadyRegistered | src/rttr/detail/reflection_database_p.h:108-112 | True exactly when some entry of the method map has the method's name and a method with the same signature. |
| Tables.FindProperty | src/rttr/detail/reflection_database_p.h:118 | Not found exactly when the name is absent from the map. Otherwise it returns the property at the name's index in the container. |
| Tables.FindMethod | src/rttr/detail/reflection_database_p.h:119 | Not found exactly when no entry has the name. Otherwise it returns a method of that name that an entry points at. |
| Tables.FindMethodBySignature | src/rttr/detail/reflection_database_p.h:120 | Not found exactly when no entry of that name has that signature. Otherwise it returns such a method. |
| Tables.ResolutionIsUnambiguous | src/rttr/detail/reflection_database_p.h:108-120 | In a map without duplicate overloads, any entry matching the name and signature is the one the lookup returns. |
| Tables.AddingNewOverloadKeepsUnique | src/rttr/detail/reflection_database_p.h:108-116 | Adding a method that is not already registered keeps the multimap free of duplicate overloads, and the method becomes findable. |
| Tables.InsertPropertyLookup | src/rttr/detail/reflection_database_p.h:115-118 | After `register_property`, `find_property` returns the new property for its name and what it returned before for every other name. |
| Tables.FindMethodBySignatureAfterAppend | src/rttr/detail/reflection_database_p.h:116-120 | After an entry is appended, a lookup that succeeded before returns the same method. Otherwise it finds the new method exactly when name and signature match. |
| Tables.InsertMethodLookup | src/rttr/detail/reflection_database_p.h:112-120 | `register_method` leaves the map as it was for a duplicate overload. For a new overload, the map stays duplicate-free, the new method is found by its name and signature, and every other lookup is unchanged. |
| ReflectionDatabase.ReadWindow | src/rttr/detail/reflection_database_p.h:139-141 | The loop reading a zero-terminated window, up to the first empty slot or 50 slots, recovers exactly the list the window holds. |
| ReflectionDatabase.LinkKeepsListsFit | src/rttr/detail/reflection_database_p.h:139-141 | Linking a new id to at most 50 registered bases keeps every window within 50 slots and listing only ids from 1 to the counter, given that each derived window had room. |
| ReflectionDatabase.Database.constructor | src/rttr/detail/reflection_database_p.h:136-167 | The empty database has counter 0, empty maps and containers and a blank record for every id, and it satisfies the invariant. |
| ReflectionDatabase.Database.RegisterType | src/rttr/detail/reflection_database_p.h:136-154 | A known name returns its id and changes no table. A new name fails with too many types, too many bases or a full derived window, in that order, and otherwise takes the next id. The new id's record holds the name, raw type, flags, pointer count, functions and base and upcast lists. Each base's derived list gains the id once per occurrence. No other id changes, and a name once mapped keeps its id. |
| ReflectionDatabase.Database.AddType | src/rttr/detail/reflection_database_p.h:136-141 | A new name that fits takes the next id. The call succeeds exactly when every derived window has room, and it then links the new id to its bases. |
| ReflectionDatabase.Database.ReserveId | src/rttr/detail/reflection_database_p.h:136-138 | The counter advances by one, the name maps to the new id, and the new id's per-id entry, blank before, holds the type's info. |
| ReflectionDatabase.Database.LinkBases | src/rttr/detail/reflection_database_p.h:139-141 | Succeeds exactly when every derived window has room. The new id's base and upcast windows then list its bases in order, and each base's derived window gains the id once per occurrence. |
| ReflectionDatabase.Database.FillWindows | src/rttr/detail/reflection_database_p.h:139-141 | The loop over the bases, in order, meets the LinkBases contract. |
| ReflectionDatabase.Database.PushBase | src/rttr/detail/reflection_database_p.h:139-141 | Base k of type t and its upcast function go into the next slots of t's windows. Every other window is kept. |
| ReflectionDatabase.Database.PushDerived | src/rttr/detail/reflection_database_p.h:140 | The id is back-filled after the last entry of a derived window. This fails, leaving the window unchanged, exactly when the window already holds 50 entries. |
| ReflectionDatabase.Database.RegisterProperty | src/rttr/detail/reflection_database_p.h:115 | The property joins `m_property_list`. Its name is bound to it in the owner's scope, and the last registration wins. The other scopes, the constructor lists and the method maps are untouched. |
| ReflectionDatabase.Database.RegisterMethod | src/rttr/detail/reflection_database_p.h:116 | A duplicate overload is dropped and changes nothing. Otherwise the method joins `m_method_list` and gets an entry in its scope's multimap. The other scopes and the property maps are untouched. |
| ReflectionDatabase.Database.RegisterConstructor | src/rttr/detail/reflection_database_p.h:124 | The constructor is appended to the class data of its type, created empty on first use. Every other id is unchanged. |
| ReflectionDatabase.Database.RegisterDestructor | src/rttr/detail/reflection_database_p.h:157 | The destructor slot of the type holds the destructor. Every other id is unchanged. |
| ReflectionDatabase.Database.RegisterEnumeration | src/rttr/detail/reflection_database_p.h:158 | The enumeration slot of the enum type holds the enumeration. Every other id is unchanged. |
| ReflectionDatabase.Database.RegisterMetadata | src/rttr/detail/reflection_database_p.h:153 | The items are merged into the type's metadata key by key, and the last value wins. Every other id is unchanged. |
| ReflectionDatabase.Database.RegisterTypeConverter | src/rttr/detail/reflection_database_p.h:159 | The converter is appended to its source type's converter list, and earlier converters are kept. |
| ReflectionDatabase.Database.RegisterCustomName | src/rttr/detail/reflection_database_p.h:167 | The (type, name) pair is appended to the custom-name multimap. |
| ReflectionDatabase.Database.ScopeOf | src/rttr/detail/reflection_database_p.h:155-161 | A declaration lands in the global property and method maps exactly when its owner is the type named "void". Otherwise it lands in the owner's own `class_data_list` entry. |
| ReflectionDatabase.Database.GetBaseTypes | src/rttr/detail/reflection_database_p.h:139 | Reading a type's base window gives exactly its list of bases. |
| ReflectionDatabase.Database.GetDerivedTypes | src/rttr/detail/reflection_database_p.h:140 | Reading a type's derived window gives exactly its list of derived types. |
| ReflectionDatabase.Database.UnregisteredIsBlank | src/rttr/detail/reflection_database_p.h:138-159 | Id 0 and every id beyond the counter have a blank record in every table. |
| MetaType.VoidDecl | src/rttr/impl/type_impl.h:261-274 | `void` is registered under its own name with no raw type, no bases, a null variant factory, all eight flags false and pointer count 0. |
| MetaType.TypeCache.GetType | src/rttr/impl/type_impl.h:227-251 | A cached type is returned with no call into the database, and the cache and the type tables stay as they were. The first use registers the type, with a register_type call for T as the last call, and caches a valid type equal to the id `name_to_id` holds. For a new name the record holds the raw type's id. A cache entry once written is never changed. Every name keeps its id, the counter never goes back, every id handed out before keeps its type info and its base and upcast lists, and a derived list only gains ids handed out since. A name already known that is its own raw type leaves the type tables as they were. |
| MetaType.TypeCache.Get | src/rttr/impl/type_impl.h:347-351 | `type::get<T>()` gives the type of T with reference, const and volatile dropped: on success the id `name_to_id` holds for that name, registered. A cached type costs no call into the database. Earlier cache entries are kept. Every name keeps its id, the counter never goes back, every id handed out before keeps its type info and its base and upcast lists, and a derived list only gains ids handed out since. A name already known that is its own raw type leaves the type tables as they were. |
| MetaType.TypeCache.FirstUse | src/rttr/impl/type_impl.h:236-250 | The raw type is registered first, then T. On success the last call is register_type for T and the result is cached. Earlier cache entries are kept. Every name keeps its id, the counter never goes back, every id handed out before keeps its type info and its base and upcast lists, and a derived list only gains ids handed out since. A name already known that is its own raw type leaves the type tables as they were. |
| MetaType.TypeCache.GetRawType | src/rttr/impl/type_impl.h:208-220 | T that is its own raw type gives the invalid type, with no call and no cache change. Otherwise it gives the registered type of the raw type, and at most the raw type's name is added. Either way the recursion stops after one step. Every name keeps its id, the counter never goes back, every id handed out before keeps its type info and its base and upcast lists, and a derived list only gains ids handed out since. When the raw type is already known, the type tables stay as they were. |
| MetaType.TypeCache.RegisterDecl | src/rttr/impl/type_impl.h:236-249 | `register_type` is called exactly once, with T's name, the raw type, the bases, the functions and the flags. On success the type is cached, and earlier cache entries are kept. For a new name, T's record is the new record, no other id's type info, base list or upcast list changes, and each base's derived list gains T's id once per occurrence. A known name leaves the type tables as they were. Every name keeps its id, the counter never goes back, every id handed out before keeps its type info and its base and upcast lists, and a derived list only gains ids handed out since. |
| MetaType.RegisterConverterFunc | src/rttr/impl/type_impl.h:373-391 | The converter is appended to the converter list of the first parameter's type with cv and reference stripped, registered on first use. Its target is the return type with cv and reference stripped. The rest of that type's member record and every other id's member record are unchanged; when the source type cannot be registered, no member record changes. Earlier cache entries are kept. Every name keeps its id, the counter never goes back, every id handed out before keeps its type info and its base and upcast lists, and a derived list only gains ids handed out since. |
| Descriptors.KeyOf | src/rttr/impl/register_reflection_impl.h:56-59 | An int key is stored as an int key and a string key as a string key. Any other key is not stored. |
| Descriptors.MergeLookup | src/rttr/impl/register_reflection_impl.h:49-61 | After folding items into metadata, a key is present exactly when it was before or some item carries it. Its value is that of the last such item, else the old value. |
| Descriptors.MergeSkipsOtherKeys | src/rttr/impl/register_reflection_impl.h:56-59 | Items whose key is neither int nor string leave the metadata unchanged. |
| Descriptors.MergeAppend | src/rttr/impl/register_reflection_impl.h:49-61 | Folding a list in two pieces is folding the pieces one after the other. |
| Descriptors.MetadataContainer.SetIntMetadata | src/rttr/impl/register_reflection_impl.h:57 | The int key takes the value, and every other key is kept. |
| Descriptors.MetadataContainer.SetStringMetadata | src/rttr/impl/register_reflection_impl.h:59 | The string key takes the value, and every other key is kept. |
| Registration.StoreMetadata | src/rttr/impl/register_reflection_impl.h:49-61 | The loop over the items leaves the descriptor's metadata equal to the fold of the items, in order, over its old metadata. |
| Registration.DescriptorMetadata | src/rttr/impl/register_reflection_impl.h:49-61 | A fresh descriptor holds the fold of the items over empty metadata once `store_metadata` has run. |
| Registration.ConstructorImpl | src/rttr/impl/register_reflection_impl.h:70-84 | The calls are register_constructor, then always register_destructor, for the same type. The constructor carries the stored metadata and the destructor is set. Every other id is unchanged. |
| Registration.AddProperty | src/rttr/detail/reflection_database_p.h:115-118 | After `register_property`, the property list gains the property and `find_property` in the owner's scope returns it; every other name finds what it found before. The method list and maps are unchanged. For a class owner the global property map, the constructor list, the method map and the rest of the owner's record are unchanged; every other id's record is unchanged. |
| Registration.AddMethod | src/rttr/detail/reflection_database_p.h:116-120 | After `register_method`, overload lookup for the new name and signature returns the earlier method if there was one, and then nothing but the log changes. Otherwise it returns the new one, which joins the method list. Every other name and signature is unchanged, the property list and maps are unchanged, and, for a class owner, the global methods, the constructor list, the property map, the rest of the owner's record and every other id's record are unchanged. |
| Registration.PropertyImpl | src/rttr/impl/register_reflection_impl.h:88-101 | One register_property call. Its descriptor has the owner as declaring type, getter and setter policies from the policy passed, and the stored metadata; it joins the property list and `find_property` returns it. Other names, the method list and maps, and everything outside the owner's property map are unchanged, as for AddProperty. |
| Registration.PropertyGetSetImpl | src/rttr/impl/register_reflection_impl.h:105-118 | As PropertyImpl, with a separate setter. |
| Registration.PropertyReadonlyImpl | src/rttr/impl/register_reflection_impl.h:122-135 | As PropertyImpl, but the setter policy is read_only whatever policy is passed. |
| Registration.MethodImpl | src/rttr/impl/register_reflection_impl.h:139-151 | One register_method call with the stored metadata. Overload lookup then finds the new method, which joins the method list, unless one with the same name and signature was there first, in which case the list is unchanged. Other lookups, the property list and maps, and everything outside the owner's method map are unchanged, as for AddMethod. |
| Registration.EnumerationImpl | src/rttr/impl/register_reflection_impl.h:155-170 | The declaring type is the invalid type exactly when ClassType is void, else `type::get<ClassType>()`; the enum type is `type::get<EnumType>()`; both are registered on first use. On success the last call is register_enumeration, and it is the only call when both types were cached. The enum type's record is the old one with the enumeration set: the declaring type, the enum type, the items and the stored metadata. Every other id's member record is unchanged, and when a type cannot be registered no member record changes. Earlier cache entries are kept. Every name keeps its id, the counter never goes back, every id handed out before keeps its type info and its base and upcast lists, and a derived list only gains ids handed out since. |
| Registration.DeclaringType | src/rttr/impl/register_reflection_impl.h:160-162 | The invalid type, with no call and no cache change, when ClassType is void. Otherwise `type::get<ClassType>()`: on success the id `name_to_id` holds for the class name, with no call when it was cached. Earlier cache entries are kept. Every name keeps its id, the counter never goes back, every id handed out before keeps its type info and its base and upcast lists, and a derived list only gains ids handed out since. |
| Registration.RegisterEnumerationItem | src/rttr/impl/register_reflection_impl.h:164-169 | The enumeration, its metadata stored, is registered under the enum type with one register_enumeration call. The enum type's record is the old one with the enumeration set, every other id's member record is unchanged, and the type tables stay as they were. |
| Registration.DeclareClass | src/rttr/impl/register_reflection_impl.h:378-389 | `type::get<T>()` registers T on first use. On success register_custom_name is called only for a non-empty name, then register_metadata always, and when T was cached these are the only calls. The custom-name list gains the pair for a non-empty name, T's metadata is merged with the items, and every other id's member record is unchanged. When T cannot be registered, the custom-name list and every member record are unchanged. Earlier cache entries are kept. Every name keeps its id, the counter never goes back, every id handed out before keeps its type info and its base and upcast lists, and a derived list only gains ids handed out since. |
| Registration.NameAndMetadata | src/rttr/impl/register_reflection_impl.h:383-386 | Once T is known: the calls are register_custom_name for a non-empty name, then register_metadata. The custom-name list gains the pair for a non-empty name, T's metadata is merged with the items, every other id's member record is unchanged, and the type tables stay as they were. |
| Registration.VoidOwner | src/rttr/impl/register_reflection_impl.h:189 | The owner of a free declaration is `type::get<void>()`: the id `name_to_id` holds for "void", registered, with the global maps as its scope. It is not the invalid type. Registering it touches no member table, container or global map, adds no name but "void", and leaves the type tables as they were when "void" is already known. Earlier cache entries are kept. Every name keeps its id, the counter never goes back, every id handed out before keeps its type info and its base and upcast lists, and a derived list only gains ids handed out since. |
| Registration.FreeProperty | src/rttr/impl/register_reflection_impl.h:184-225 | `property_` registers under the void owner with default_property_policy when no policy is given. The property joins the property list and is found among the global properties; other global names are unchanged. On failure the property list and global map are unchanged. The method list and maps and every id's member record are always unchanged. Earlier cache entries are kept. Every name keeps its id, the counter never goes back, every id handed out before keeps its type info and its base and upcast lists, and a derived list only gains ids handed out since. When "void" is already known the type tables stay as they were. |
| Registration.FreePropertyGetSet | src/rttr/impl/register_reflection_impl.h:229-284 | As FreeProperty, with a separate setter, and with the same cache and type-table frame. |
| Registration.FreePropertyReadonly | src/rttr/impl/register_reflection_impl.h:288-332 | As FreeProperty, with the read_only setter policy, and with the same cache and type-table frame. |
| Registration.FreeMethod | src/rttr/impl/register_reflection_impl.h:336-364 | `method_` registers under the void owner with default_invoke when no policy is given. Lookup among the global methods then finds it, unless one with the same name and signature was there first, in which case the global methods are unchanged; other lookups are unchanged. On failure the method list and global methods are unchanged. The property list and maps and every id's member record are always unchanged. Earlier cache entries are kept. Every name keeps its id, the counter never goes back, every id handed out before keeps its type info and its base and upcast lists, and a derived list only gains ids handed out since. When "void" is already known the type tables stay as they were. |
| Registration.FreeEnumeration | src/rttr/impl/register_reflection_impl.h:368-372 | `enumeration_` is enumeration_impl with ClassType void: the enum type, registered on first use, gets the enumeration with the invalid type, which is not valid, as declaring type, the items and the stored metadata; the rest of its record and every other id's member record are unchanged, and on failure no member record changes. On success the last call is register_enumeration, the only one when the enum type was cached. Earlier cache entries are kept. Every name keeps its id, the counter never goes back, every id handed out before keeps its type info and its base and upcast lists, and a derived list only gains ids handed out since. |

## Left out

- Mutexes, the `instance()` singleton and the `RTTR_REGISTER` macro: one explicit database object is used sequentially.
- Extracting names from compiler signature text (`f<T>`, `extract_type_signature`, the skip sizes): the canonical name of a type is an input.
- The `static_assert`s and the policy and trait selection: where a check matters it becomes a `requires` (`IsConverterSignature`), and the chosen policy and the flags are parameters.
- Invokers, accessors, variant factories, derived-info functions, upcast functions and `type_converter` bodies: these are opaque `Token`s.
- `extract_types` and `std::hash<rttr::type>`: the first depends on the `argument` class, which is not part of this model; the second only forwards to the id.
- `type::get(T&&)`, `type_from_instance`, `get_type_from_instance` and `is_derived_from<T>`: these only forward to `MetaTypeInfo`, or to an object's own `get_type()`, which is not part of this model.
- The `MetaTypeInfo` specialisation for function types: it differs from the general template only in passing an empty base list, which a `TypeDecl` with no bases expresses.
- The registrations the descriptor getters trigger (`get_type()`, `get_return_type()`, `get_parameter_types()`, `get_instanciated_type()`): the types they return are registered types passed in.
- The base-class registration in the `class_<T>` destructor, and the `class_` builder members and `constructor_`: each builder member calls one `*_impl` with the class type as owner and returns `*this`, and the `*_impl` methods are modelled with that owner as a parameter.
- The tables `register_type` fills together are grouped into one `TypeInfo` record per id: name, raw type, the eight flags, pointer count and functions. The tables the member registrations fill are grouped into one `TypeMembers` record per id: metadata, class data, destructor, enumeration and converters.
- The global `m_constructor_list` and `m_destructor_list` containers are not kept apart from the per-type entries that point into them.
- The per-id `constructor_list[RTTR_MAX_TYPE_COUNT]` array (reflection_database_p.h:156) is not a table of its own: a type's constructors are the `m_ctor_list` of its `class_data`, which is where `add_constructor` (reflection_database_p.h:122-129) puts them.
- `name_to_id` is keyed by the text of the name rather than by the `const char*`, which the contracts of `ComparisonChar` and `HashChar` justify. `name_list` is the name field of each `TypeInfo`.
- Overflow of `type_id` is not modelled: the counter stays below `RTTR_MAX_TYPE_COUNT`.
- The database's state after a fatal error is not modelled beyond the failing call.
- ReflectionDatabase.Database.RegisterType: when a derived window is full (`TooManyDerivedTypes`), the invariant is not promised, because the new id is already partly linked.
- MetaType.TypeCache.GetType: for the same reason, after `TooManyDerivedTypes` from the raw type or from T, the invariant is not promised. The same holds for FirstUse, GetRawType and RegisterDecl.
- MetaType.TypeCache.GetType: `base_classes<T>::get_types()` (type_impl.h:238) registers each base on first use, and that registration is not modelled. The bases arrive already registered (`requires` BasesBelow); the same holds for FirstUse and RegisterDecl.
- MetaType.TypeCache.GetType: that a name already known leaves the type tables as they were is stated only for a type that is its own raw type. For a type with a raw type it is stated one step down, on GetRawType (raw type known) and RegisterDecl (T known). The same holds for FirstUse and Get.
- Registration.DeclareClass: the bases of T arrive already registered (`requires` BasesBelow), as for GetType. The same holds for the class and enum types of Registration.EnumerationImpl, Registration.DeclaringType and Registration.FreeEnumeration.
- Registration.EnumerationImpl: `enum_item->get_type()` (register_reflection_impl.h:166) goes through `enumeration_container`, which is not part of this model. It is taken to be `type::get<EnumType>()`, so the enum type is registered once, before the metadata is stored, and the later `type::get<EnumType>()` finds it cached.
- MetaType.RegisterConverterFunc: the invariant is promised unless registering the source type fails with `TooManyDerivedTypes`.
- Registration.VoidOwner: the invariant is not promised after `TooManyDerivedTypes`. The same holds for Registration.DeclareClass, Registration.EnumerationImpl, Registration.DeclaringType, Registration.FreeEnumeration and MetaType.TypeCache.Get. The free property and method forms promise the invariant only on success; on failure they promise that the containers and maps are unchanged.
- ReflectionDatabase.Database.RegisterProperty: last-wins for a repeated name follows the library's documented behaviour. The header declares only the `unordered_map` keyed by name, and the `.cpp` body is not part of this model.
- Tables.FindMethod: it returns the first matching entry in multimap order. `unordered_multimap` leaves that order unspecified, so the contract promises only some method of that name.
