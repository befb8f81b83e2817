/**
 * The identity handle `ID` (types/id.h): an immutable pair of an index and a
 * generation. `Entity` is the same type.
 */
module Ids {

  /** The generation every fresh slot and every fresh entity starts at. */
  const DefaultGeneration: nat := 0

  /**
   * There is no default constructor: an `ID` is always built from both fields,
   * and its getters return them unchanged.
   */
  datatype ID = ID(index: nat, generation: nat) {

    function GetIndex(): nat { index }

    function GetGeneration(): nat { generation }

    /** `operator==`: field-by-field comparison, which is exactly identity of IDs. */
    predicate Equals(other: ID)
      ensures Equals(other) <==> this == other
    {
      GetIndex() == other.GetIndex() && GetGeneration() == other.GetGeneration()
    }
  }

  type Entity = ID

  /** The getters give back what the constructor was given. */
  lemma GettersReturnFields(index: nat, generation: nat)
    ensures ID(index, generation).GetIndex() == index
    ensures ID(index, generation).GetGeneration() == generation
  {
  }

  /**
   * `std::hash<ID>`: the hash of the index xor the hash of the generation
   * shifted left by one bit. The hash of a `size_t` is implementation
   * defined, so it is a parameter here.
   */
  function Hash(id: ID, sizeHash: nat -> bv64): bv64
  {
    sizeHash(id.GetIndex()) ^ (sizeHash(id.GetGeneration()) << 1)
  }

  /** The hash reads nothing but the two fields, so equal IDs hash equally. */
  lemma EqualIdsHashEqually(a: ID, b: ID, sizeHash: nat -> bv64)
    requires a.Equals(b)
    ensures Hash(a, sizeHash) == Hash(b, sizeHash)
  {
  }
}
