/**
 * `Registry<T>` (include/registry.h): an append-only table of owned entries,
 * addressed by the position at which each was added.
 */
module Registries {
  import opened Outcomes

  class Registry<T> {
    /** `factories_`: the entries in the order they were added. */
    var entries: seq<T>

    /** A new registry holds nothing. */
    constructor ()
      ensures entries == []
    {
      entries := [];
    }

    /**
     * `Add(entry)`: a null entry is refused; otherwise the entry is appended
     * and its id is the number of entries there were before.
     */
    method Add(entry: Option<T>) returns (r: Result<nat>)
      modifies this
      ensures entry.None? ==> r == Failure(NullEntry) && entries == old(entries)
      ensures entry.Some? ==> r == Success(|old(entries)|) && entries == old(entries) + [entry.value]
    {
      if entry.None? {
        return Failure(NullEntry);
      }
      r := Success(|entries|);
      entries := entries + [entry.value];
    }

    /**
     * `Get(id)`: the entry added under `id`. The "no entry" check of the
     * source cannot fire, since `Add` never stores a null entry.
     */
    method Get(id: nat) returns (r: Result<T>)
      ensures id < |entries| <==> r.Success?
      ensures r.Success? ==> r.value == entries[id]
      ensures r.Failure? ==> r.error == EntryOutOfRange
    {
      if id >= |entries| {
        return Failure(EntryOutOfRange);
      }
      r := Success(entries[id]);
    }

    method GetCount() returns (n: nat)
      ensures n == |entries|
    {
      n := |entries|;
    }
  }
}
