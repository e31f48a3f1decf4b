/**
 * rttr::type as a value (src/rttr/impl/type_impl.h): a thin wrapper over an
 * integer id, where id 0 stands for the invalid type. Every operator is the
 * same operator on the ids. Copy construction and assignment are Dafny's
 * value semantics for datatypes: a copy is an equal value.
 */
module Types {

  /** type::type_id; ids are dense, 1-based, and 0 is reserved for "invalid". */
  type TypeId = nat

  datatype Type = Type(id: TypeId) {

    /** get_id(): the stored id. */
    function GetId(): (r: TypeId)
      ensures Type(r) == this
    {
      id
    }

    /** is_valid(). */
    predicate IsValid() {
      id != 0
    }

    /** operator bool(): the same test as is_valid(). */
    predicate AsBool() {
      id != 0
    }

    predicate Less(other: Type) { id < other.id }
    predicate Greater(other: Type) { id > other.id }
    predicate LessEq(other: Type) { id <= other.id }
    predicate GreaterEq(other: Type) { id >= other.id }
    predicate Equal(other: Type) { id == other.id }
    predicate NotEqual(other: Type) { id != other.id }
  }

  /** type(): the default-constructed type has id 0. */
  function DefaultType(): (t: Type)
    ensures t.GetId() == 0 && !t.IsValid() && !t.AsBool()
  {
    Type(0)
  }

  /** type(type_id): wraps an id. */
  function FromId(id: TypeId): (t: Type)
    ensures t.GetId() == id
    ensures t.IsValid() <==> id != 0
  {
    Type(id)
  }

  /** type(const type&) and operator=: the new value carries the other's id. */
  function Copy(other: Type): (t: Type)
    ensures t.GetId() == other.GetId() && t.Equal(other)
  {
    Type(other.id)
  }

  /** impl::get_invalid_type(): a default-constructed type. */
  function InvalidType(): (t: Type)
    ensures t == DefaultType() && !t.IsValid()
  {
    DefaultType()
  }

  /** is_valid() and operator bool() agree, and both say "the id is not 0". */
  lemma ValidityIsNonZeroId(t: Type)
    ensures t.IsValid() <==> t.AsBool()
    ensures t.IsValid() <==> t.GetId() != 0
    ensures !t.IsValid() <==> t == InvalidType()
  {
  }

  /** operator== and operator!= are identity of the wrapped id, and each other's negation. */
  lemma EqualityIsIdIdentity(a: Type, b: Type)
    ensures a.Equal(b) <==> a == b
    ensures a.NotEqual(b) <==> !a.Equal(b)
    ensures a.Equal(b) <==> a.GetId() == b.GetId()
  {
  }

  /** The relational operators mirror one another as on integers. */
  lemma OrderOperatorsMirror(a: Type, b: Type)
    ensures a.Less(b) <==> b.Greater(a)
    ensures a.LessEq(b) <==> !a.Greater(b)
    ensures a.GreaterEq(b) <==> !a.Less(b)
    ensures a.LessEq(b) <==> a.Less(b) || a.Equal(b)
  {
  }

  /** operator< is a strict total order on types. */
  lemma LessIsStrictTotalOrder(a: Type, b: Type, c: Type)
    ensures !a.Less(a)
    ensures a.Less(b) ==> !b.Less(a)
    ensures a.Less(b) && b.Less(c) ==> a.Less(c)
    ensures a.Less(b) || a == b || b.Less(a)
  {
  }
}
