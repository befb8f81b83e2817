/**
 * `FactoryRegistry<FACTORY>` (include/factory_registry.h): the same
 * append-only table as `Registry`, holding factories.
 */
module FactoryRegistries {
  import opened Outcomes

  class FactoryRegistry<F> {
    /** `factories_`: the factories in the order they were added. */
    var factories: seq<F>

    constructor ()
      ensures factories == []
    {
      factories := [];
    }

    /** `Add(factory)`: refuses null; otherwise appends and returns the previous count as the id. */
    method Add(factory: Option<F>) returns (r: Result<nat>)
      modifies this
      ensures factory.None? ==> r == Failure(NullEntry) && factories == old(factories)
      ensures factory.Some? ==> r == Success(|old(factories)|) && factories == old(factories) + [factory.value]
    {
      if factory.None? {
        return Failure(NullEntry);
      }
      r := Success(|factories|);
      factories := factories + [factory.value];
    }

    /** `Get(id)`: the factory whose `Add` returned `id`; out of range ids are refused. */
    method Get(id: nat) returns (r: Result<F>)
      ensures id < |factories| <==> r.Success?
      ensures r.Success? ==> r.value == factories[id]
      ensures r.Failure? ==> r.error == EntryOutOfRange
    {
      if id >= |factories| {
        return Failure(EntryOutOfRange);
      }
      r := Success(factories[id]);
    }

    method GetCount() returns (n: nat)
      ensures n == |factories|
    {
      n := |factories|;
    }
  }

  /**
   * Two factories added to a new registry get the ids 0 and 1, the count is
   * 1 after the first and 2 after the second, each id gives back its own
   * factory, and the next id is refused.
   */
  method TwoFactories<F>(a: F, b: F)
    returns (idA: Result<nat>, countA: nat, idB: Result<nat>, countB: nat,
             gotA: Result<F>, gotB: Result<F>, beyond: Result<F>)
    ensures idA == Success(0) && countA == 1
    ensures idB == Success(1) && countB == 2
    ensures gotA == Success(a) && gotB == Success(b)
    ensures beyond == Failure(EntryOutOfRange)
  {
    var registry := new FactoryRegistry<F>();
    idA := registry.Add(Some(a));
    countA := registry.GetCount();
    idB := registry.Add(Some(b));
    countB := registry.GetCount();
    gotA := registry.Get(idA.value);
    gotB := registry.Get(idB.value);
    beyond := registry.Get(2);
  }
}
